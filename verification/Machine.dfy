/** The fixed-width integers of the modelled program, with the saturating operations it uses. */
module Machine {
  const U32_MAX: nat := 0xFFFF_FFFF

  type u32 = n: nat | n <= 0xFFFF_FFFF
  type u64 = n: nat | n <= 0xFFFF_FFFF_FFFF_FFFF

  function Min(a: nat, b: nat): nat {
    if a <= b then a else b
  }

  function Max(a: nat, b: nat): nat {
    if a >= b then a else b
  }

  /** `u32::saturating_add` */
  function SatAdd(a: u32, b: u32): u32 {
    if a + b > U32_MAX then U32_MAX else a + b
  }

  /** `u32::saturating_sub` */
  function SatSub(a: u32, b: u32): u32 {
    if a < b then 0 else a - b
  }
}

/** Results and options shared by the models. */
module Wrappers {
  datatype Option<+T> = None | Some(value: T)

  datatype Result<+T, +E> = Ok(value: T) | Err(error: E)
}
