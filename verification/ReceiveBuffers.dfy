/** The receive buffers of `buffer.rs`: sizing, growth and the free list.
    `block` is `size_of::<HTTP_REQUEST_V2>()`; every result holds for any value. */
module ReceiveBuffers {
  import opened Basics

  const U64_MAX: nat := 0xFFFF_FFFF_FFFF_FFFF
  const HEADER_SLACK: nat := 8 * 1024

  /** The Content-Length header as received. */
  datatype ContentLength = Absent | Number(n: nat) | Garbage

  /** The fields of the header block that this crate's core reads. */
  datatype Header = Header(requestId: nat, urlContext: nat, length: ContentLength)

  /** A zeroed header block. */
  const ZERO := Header(0, 0, Absent)

  /** Contents of a `RequestBuffer`. */
  datatype Buf = Buf(words: nat, header: Header)

  function DivCeil8(x: nat): nat { (x + 7) / 8 }

  /** `RequestBuffer::new`. */
  function NewBuf(block: nat, bytes: nat): Buf {
    Buf(Max(DivCeil8(bytes), DivCeil8(block) + 1), ZERO)
  }

  /** `RequestBuffer::capacity`, with its cast to `u32`. */
  function Capacity(b: Buf): nat { (b.words * 8) % TWO_32 }

  /** `RequestBuffer::grow_to`. */
  function Grown(block: nat, b: Buf, bytes: nat): Buf {
    if bytes > Capacity(b) then NewBuf(block, bytes) else b
  }

  /** `RequestBuffer::declared_body_len`. */
  function DeclaredBodyLen(h: Header): Option<nat> {
    match h.length
    case Absent => None
    case Number(n) => Some(n)
    case Garbage => Some(U64_MAX)
  }

  /** Room for a declared body and its headers: `saturating_add(HEADER_SLACK)`. */
  function Room(declared: nat): nat {
    if declared + HEADER_SLACK > U64_MAX then U64_MAX else declared + HEADER_SLACK
  }

  /** `PooledBuffer::fit_body_inline`. */
  function Fitted(block: nat, maxBytes: nat, b: Buf): (Buf, bool) {
    match DeclaredBodyLen(b.header)
    case None => (b, true)
    case Some(d) => if Room(d) > maxBytes then (b, false) else (Grown(block, b, Room(d)), true)
  }

  /** `fit_body_inline` throws the allocation away. */
  predicate Replaced(maxBytes: nat, b: Buf) {
    match DeclaredBodyLen(b.header)
    case None => false
    case Some(d) => Capacity(b) < Room(d) <= maxBytes
  }

  // ----- Sizing -----

  /** The configured sizes: nothing a cast to `u32` could truncate. */
  predicate SizesOk(block: nat, maxBytes: nat) {
    maxBytes < TWO_32 - 8 && block < TWO_32 - 16
  }

  /** Largest size a buffer may ever have: `maxBytes` or the minimum block, in words. */
  function Ceiling(block: nat, maxBytes: nat): nat {
    Max(DivCeil8(maxBytes), DivCeil8(block) + 1) * 8
  }

  /** Bigger than the header block, at most the ceiling, and reported truthfully. */
  predicate Sized(block: nat, maxBytes: nat, b: Buf) {
    block < b.words * 8 <= Ceiling(block, maxBytes) && Capacity(b) == b.words * 8
  }

  lemma NewBufIsSized(block: nat, maxBytes: nat, bytes: nat)
    requires SizesOk(block, maxBytes) && bytes <= maxBytes
    ensures Sized(block, maxBytes, NewBuf(block, bytes))
    ensures Max(bytes, block + 8) <= Capacity(NewBuf(block, bytes)) < Max(bytes + 8, block + 16)
  {
    assert DivCeil8(bytes) <= DivCeil8(maxBytes);
  }

  /** The cast wraps: a buffer of 4 GiB would report no capacity at all. */
  lemma CapacityWraps(b: Buf)
    ensures Capacity(b) < 0x1_0000_0000
    ensures b.words == 0x2000_0000 ==> Capacity(b) == 0
    ensures b.words < 0x2000_0000 ==> Capacity(b) == b.words * 8
  {}

  /** `fit_body_inline` says true exactly when there is no declared length or it fits
      under the maximum; then the room is there, and the buffer never shrinks. */
  lemma FitIsExact(block: nat, maxBytes: nat, b: Buf)
    requires SizesOk(block, maxBytes) && Sized(block, maxBytes, b)
    ensures var (b', inline) := Fitted(block, maxBytes, b); var d := DeclaredBodyLen(b.header);
            && Sized(block, maxBytes, b') && Capacity(b') >= Capacity(b)
            && (inline <==> d.None? || Room(d.value) <= maxBytes)
            && (inline && d.Some? ==> Capacity(b') >= d.value + HEADER_SLACK)
            && (b' == b || b'.header == ZERO)
            && (b' != b <==> Replaced(maxBytes, b))
  {
    var d := DeclaredBodyLen(b.header);
    if d.Some? && Room(d.value) <= maxBytes { NewBufIsSized(block, maxBytes, Room(d.value)); }
  }

  /** The body of a request with this length may arrive inline under this maximum: the
      condition the source documents, in numbers. */
  predicate MayInline(length: ContentLength, maxBytes: nat) {
    match length
    case Absent => true
    case Number(n) => n + 8192 <= maxBytes
    case Garbage => false
  }

  /** `fit_body_inline` by the header it finds: without a length, or with one that cannot be
      parsed or is too large, the buffer stays as it is; otherwise it has room for the body
      and 8 KiB of headers.  The answer is whether the body may arrive inline. */
  lemma FitByCases(block: nat, maxBytes: nat, b: Buf)
    requires maxBytes < TWO_32 - 8
    ensures Fitted(block, maxBytes, b).1 <==> MayInline(b.header.length, maxBytes)
    ensures var b' := Fitted(block, maxBytes, b).0;
            match b.header.length
            case Absent | Garbage => b' == b
            case Number(n) =>
              if Capacity(b) < n + 8192 <= maxBytes then b'.words * 8 >= n + 8192 && b'.header == ZERO else b' == b
  {}

  // ----- The free list, over any run -----

  /** A pool and the buffers checked out of it. */
  datatype Pool = Pool(block: nat, slots: nat, bytes: nat, maxBytes: nat, free: seq<Buf>, out: seq<Buf>)

  /** `BufferPool::new`. */
  function NewPool(block: nat, slots: nat, bytes: nat, maxBytes: nat): Pool {
    Pool(block, slots, bytes, Max(maxBytes, bytes), [], [])
  }

  datatype PoolStep = Take | Fill(i: nat, h: Header) | Fit(i: nat) | Return(i: nat)

  predicate PoolEnabled(p: Pool, a: PoolStep) { a.Take? || a.i < |p.out| }

  function PoolNext(p: Pool, a: PoolStep): Pool
    requires PoolEnabled(p, a)
  {
    match a
    case Take =>
      if p.free == [] then p.(out := p.out + [NewBuf(p.block, p.bytes)])
      else p.(free := p.free[1..], out := p.out + [p.free[0]])
    case Fill(i, h) => p.(out := p.out[i := p.out[i].(header := h)])
    case Fit(i) => p.(out := p.out[i := Fitted(p.block, p.maxBytes, p.out[i]).0])
    case Return(i) =>
      p.(out := p.out[..i] + p.out[i + 1..],
         free := if |p.free| < Max(1, p.slots) then p.free + [p.out[i]] else p.free)
  }

  function PoolRun(p: Pool, run: seq<PoolStep>): (r: Option<Pool>)
    decreases |run|
  {
    if run == [] then Some(p)
    else if PoolEnabled(p, run[0]) then PoolRun(PoolNext(p, run[0]), run[1..]) else None
  }

  ghost predicate PoolOk(p: Pool) {
    && SizesOk(p.block, p.maxBytes) && p.bytes <= p.maxBytes
    && |p.free| <= Max(1, p.slots)
    && (forall i :: 0 <= i < |p.free| ==> Sized(p.block, p.maxBytes, p.free[i]))
    && (forall i :: 0 <= i < |p.out| ==> Sized(p.block, p.maxBytes, p.out[i]))
  }

  lemma PoolStepKeepsOk(p: Pool, a: PoolStep)
    requires PoolOk(p) && PoolEnabled(p, a)
    ensures PoolOk(PoolNext(p, a))
  {
    NewBufIsSized(p.block, p.maxBytes, p.bytes);
    if a.Fit? { FitIsExact(p.block, p.maxBytes, p.out[a.i]); }
  }

  lemma {:induction false} PoolRunKeepsOk(p: Pool, run: seq<PoolStep>)
    requires PoolOk(p)
    ensures PoolRun(p, run).Some? ==>
              var p' := PoolRun(p, run).value; PoolOk(p') && p' == p.(free := p'.free, out := p'.out)
    decreases |run|
  {
    if run != [] && PoolEnabled(p, run[0]) {
      PoolStepKeepsOk(p, run[0]);
      PoolRunKeepsOk(PoolNext(p, run[0]), run[1..]);
    }
  }

  /** Over any sequence of takes, receives, growths and returns on a new pool, every
      buffer, free or checked out, exceeds the header block and stays under the
      ceiling, and the free list stays bounded. */
  lemma BuffersStaySized(block: nat, slots: nat, bytes: nat, maxBytes: nat, run: seq<PoolStep>)
    requires SizesOk(block, Max(maxBytes, bytes))
    ensures var r := PoolRun(NewPool(block, slots, bytes, maxBytes), run); var top := Max(maxBytes, bytes);
            r.Some? ==>
              && |r.value.free| <= Max(1, slots)
              && (forall i :: 0 <= i < |r.value.free| ==> Sized(block, top, r.value.free[i]))
              && (forall i :: 0 <= i < |r.value.out| ==> Sized(block, top, r.value.out[i]))
  {
    PoolRunKeepsOk(NewPool(block, slots, bytes, maxBytes), run);
  }

  // ----- The objects -----

  /** A buffer checked out of a pool. */
  class PooledBuffer {
    const block: nat
    const maxBytes: nat
    var words: nat
    var header: Header

    function Value(): Buf
      reads this
    {
      Buf(words, header)
    }

    constructor (block: nat, maxBytes: nat, b: Buf)
      ensures Value() == b && this.block == block && this.maxBytes == maxBytes
    {
      this.block, this.maxBytes, words, header := block, maxBytes, b.words, b.header;
    }

    /** Zero the header block before the kernel fills it. */
    method Prepare()
      modifies this
      ensures Value() == old(Value()).(header := ZERO)
    {
      header := ZERO;
    }

    method GrowTo(bytes: nat)
      modifies this
      ensures Value() == Grown(block, old(Value()), bytes)
      ensures SizesOk(block, maxBytes) && old(Sized(block, maxBytes, Value())) && bytes <= maxBytes ==>
                Sized(block, maxBytes, Value()) && Capacity(Value()) >= Max(bytes, old(Capacity(Value())))
    {
      if bytes > Capacity(Value()) {
        var fresh' := NewBuf(block, bytes);
        words, header := fresh'.words, fresh'.header;
        if SizesOk(block, maxBytes) && bytes <= maxBytes { NewBufIsSized(block, maxBytes, bytes); }
      }
    }

    method FitBodyInline() returns (inline: bool)
      modifies this
      ensures (Value(), inline) == Fitted(block, maxBytes, old(Value()))
      ensures maxBytes < TWO_32 - 8 ==> (inline <==> MayInline(old(header.length), maxBytes))
      ensures forall p: Pool :: p.out == [old(Value())] && p.block == block && p.maxBytes == maxBytes ==>
                PoolNext(p, PoolStep.Fit(0)) == p.(out := [Value()])
      ensures old(Replaced(maxBytes, Value())) ==> header == ZERO
      ensures !old(Replaced(maxBytes, Value())) ==> Value() == old(Value())
    {
      if maxBytes < TWO_32 - 8 { FitByCases(block, maxBytes, Value()); }
      var declared := DeclaredBodyLen(header);
      if declared.None? { return true; }
      var needed := Room(declared.value);
      if needed > maxBytes { return false; }
      GrowTo(needed);
      inline := true;
    }
  }

  /** The free list; buffers are moved in and out, so it holds values. */
  class BufferPool {
    const block: nat
    const slots: nat
    const bytes: nat
    const maxBytes: nat
    var free: seq<Buf>

    ghost predicate Valid()
      reads this
    {
      && |free| <= Max(1, slots) && bytes <= maxBytes
      && (SizesOk(block, maxBytes) ==> forall i :: 0 <= i < |free| ==> Sized(block, maxBytes, free[i]))
    }

    constructor (block: nat, slots: nat, bytes: nat, maxBytes: nat)
      ensures Valid() && free == [] && this.block == block && this.slots == slots
      ensures this.bytes == bytes && this.maxBytes == Max(maxBytes, bytes)
    {
      this.block, this.slots, this.bytes, this.maxBytes, free := block, slots, bytes, Max(maxBytes, bytes), [];
    }

    method Take() returns (b: PooledBuffer)
      requires Valid()
      modifies this
      ensures Valid() && fresh(b) && b.block == block && b.maxBytes == maxBytes
      ensures b.Value() == if old(free) == [] then NewBuf(block, bytes) else old(free)[0]
      ensures free == if old(free) == [] then [] else old(free)[1..]
      ensures SizesOk(block, maxBytes) ==> Sized(block, maxBytes, b.Value())
      ensures var before := Pool(block, slots, bytes, maxBytes, old(free), []);
              PoolNext(before, PoolStep.Take) == before.(free := free, out := [b.Value()])
    {
      if SizesOk(block, maxBytes) { NewBufIsSized(block, maxBytes, bytes); }
      if free == [] {
        b := new PooledBuffer(block, maxBytes, NewBuf(block, bytes));
      } else {
        b := new PooledBuffer(block, maxBytes, free[0]);
        free := free[1..];
      }
    }

    /** `PooledBuffer::drop`: the buffer inside goes back. */
    method Return(b: Buf)
      requires Valid() && (SizesOk(block, maxBytes) ==> Sized(block, maxBytes, b))
      modifies this
      ensures Valid()
      ensures free == if |old(free)| < Max(1, slots) then old(free) + [b] else old(free)
      ensures var before := Pool(block, slots, bytes, maxBytes, old(free), [b]);
              PoolNext(before, PoolStep.Return(0)) == before.(free := free, out := [])
    {
      if |free| < Max(1, slots) { free := free + [b]; }
    }
  }
}
