/** Shared definitions. */
module Basics {

  const TWO_32: nat := 0x1_0000_0000

  /** Packets dequeued per call by one completion thread. */
  const BATCH: nat := 64

  datatype Option<T> = None | Some(value: T)

  function Max(a: nat, b: nat): nat { if a < b then b else a }

  function Min(a: nat, b: nat): nat { if a < b then a else b }
}
