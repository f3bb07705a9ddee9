/** 64-bit bounds and saturating arithmetic on unbounded naturals. */
module Integers {
  const MAX_U64 := 0xffff_ffff_ffff_ffff

  function SatAdd(a: nat, b: nat, max: nat): nat {
    if a + b > max then max else a + b
  }

  function SatSub(a: nat, b: nat): nat {
    if a < b then 0 else a - b
  }
}
