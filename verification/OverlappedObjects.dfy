/** The objects of `overlapped.rs`, one call at a time: the sequential reading of the
    actions that module `Overlapped` interleaves. */
module OverlappedObjects {
  import opened Basics
  import opened Overlapped

  /** An `Arc<OverlappedWrap>` with its strong count. */
  class OverlappedWrap {
    var rc: nat
    var status: nat
    var bytes: nat
    var completed: bool
    var waker: Option<nat>
    var err: nat
    var len: nat
    ghost var gen: nat

    ghost function Value(): Wrap
      reads this
    {
      Wrap(rc, status, bytes, completed, waker, err, len, gen)
    }

    constructor ()
      ensures Value() == Fresh(1, 0)
    {
      rc, status, bytes, completed, waker, err, len, gen := 1, 0, 0, false, None, 0, 0, 0;
    }

    /** `complete`: the result names whom to wake. */
    method Complete(win32Err: nat, count: nat) returns (woken: Option<nat>)
      modifies this
      ensures woken == old(waker)
      ensures Value() == old(Value()).(err := win32Err, len := count, completed := true, waker := None)
    {
      err := win32Err;
      len := count;
      completed := true;
      woken := waker;
      waker := None;
    }

    /** `deliver_completion`: read the status back, complete, drop the reference; the
        protocol's five delivery steps run back to back. */
    method DeliverCompletion(count: nat) returns (woken: Option<nat>)
      requires rc > 0
      modifies this
      ensures woken == old(waker)
      ensures forall v: View :: Starts(v, old(Value()), count) ==> Delivered(v).wrap == Value()
    {
      woken := Complete(status, count);
      rc := rc - 1;
    }

    /** `reset`. */
    method Reset()
      modifies this
      ensures Value() == Fresh(old(rc), old(gen))
    {
      status, bytes, completed, waker, err, len := 0, 0, false, None, 0, 0;
    }
  }

  /** A completion thread has dequeued a packet of `len` bytes for `wrap`. */
  predicate Starts(v: View, wrap: Wrap, len: nat) {
    v.op.phase.Delivering? && v.op.phase.stage.Taken? && v.wrap == wrap && v.op.len == len
  }

  /** The three stores, the wake and the drop of the protocol, run back to back. */
  function Delivered(v: View): View
    requires v.op.phase.Delivering? && v.op.phase.stage.Taken?
  {
    DeliverView(DeliverView(DeliverView(DeliverView(DeliverView(v)))))
  }

  /** The protocol's wrap of operation `g` and its pool are as the objects are. */
  predicate Mirrors(s: State, t: nat, g: nat, wrap: Wrap, pooled: nat, cap: nat) {
    Present(s, t, g) && Get(s, t, g).wrap == wrap && |s.free| == pooled && s.poolCap == cap
  }

  /** The protocol's wrap is as the object is, gone if nobody refers to it. */
  predicate LeftAs(s: State, w: nat, wrap: Wrap) {
    if wrap.rc == 0 then w !in s.wraps else w in s.wraps && s.wraps[w] == wrap
  }

  class OpPool {
    const slots: nat
    var free: seq<OverlappedWrap>

    /** Pooled wraps are distinct, reset, and held by the pool alone. */
    ghost predicate Valid()
      reads this, free
    {
      && |free| <= Max(1, slots)
      && (forall i :: 0 <= i < |free| ==> free[i].Value() == Fresh(1, free[i].gen))
      && (forall i, j :: 0 <= i < j < |free| ==> free[i] != free[j])
    }

    constructor (slots: nat)
      ensures Valid() && free == [] && this.slots == slots
    {
      this.slots, free := slots, [];
    }

    method Take() returns (wrap: OverlappedWrap)
      requires Valid()
      modifies this
      ensures Valid() && wrap.Value() == Fresh(1, wrap.gen) && wrap !in free
      ensures if old(free) == [] then fresh(wrap) && free == [] else wrap == old(free)[0] && free == old(free)[1..]
    {
      if free == [] {
        wrap := new OverlappedWrap();
      } else {
        wrap := free[0];
        free := free[1..];
      }
    }

    /** `give_back`: pooled only if `Arc::get_mut` succeeds and there is room. */
    method GiveBack(wrap: OverlappedWrap)
      requires Valid() && wrap !in free && wrap.rc >= 1
      modifies this, wrap
      ensures Valid()
      ensures var room := |old(free)| < Max(1, slots);
              if old(wrap.rc) == 1 && room
              then free == old(free) + [wrap] && wrap.Value() == Fresh(1, old(wrap.gen))
              else free == old(free) && wrap.rc == old(wrap.rc) - 1
      ensures old(wrap.rc) > 1 ==> wrap.Value() == old(wrap.Value()).(rc := old(wrap.rc) - 1)
      ensures forall s: State, t: nat, g: nat :: Mirrors(s, t, g, old(wrap.Value()), |old(free)|, Max(1, slots)) ==>
                && |GiveBackOp(s, t, g).free| - |s.free| == |free| - |old(free)|
                && LeftAs(GiveBackOp(s, t, g), s.ops[g].wrap, wrap.Value())
    {
      if wrap.rc != 1 {
        wrap.rc := wrap.rc - 1;
        return;
      }
      wrap.Reset();
      if |free| < Max(1, slots) {
        free := free + [wrap];
      } else {
        wrap.rc := 0;
      }
    }
  }
}
