/** Shared value types: optional values, results and the integer widths of the source. */
module Prelude {

  datatype Option<+T> = None | Some(value: T) {
    predicate IsFailure() { None? }

    function PropagateFailure<U>(): Option<U>
      requires None?
    {
      None
    }

    function GetOr(default: T): T { if Some? then value else default }

    function Extract(): T
      requires Some?
    {
      value
    }
  }

  datatype Result<+T, +E> = Ok(value: T) | Err(error: E)

  /** The outcome of a call that may fail with `e` and otherwise returns nothing. */
  function Outcome<E>(e: Option<E>): Result<(), E> {
    if e.Some? then Err(e.value) else Ok(())
  }

  /** The state after a call: an error leaves it as it was. */
  function Settled<S, E>(r: Result<S, E>, before: S): S {
    if r.Ok? then r.value else before
  }

  const U32_MAX: int := 0xFFFF_FFFF
  const U64_MAX: int := 0xFFFF_FFFF_FFFF_FFFF
  const U128_MAX: int := 0xFFFF_FFFF_FFFF_FFFF_FFFF_FFFF_FFFF_FFFF

  type U16 = x: int | 0 <= x < 0x1_0000
  type U32 = x: int | 0 <= x <= U32_MAX
  type U64 = x: int | 0 <= x <= U64_MAX
  type U128 = x: int | 0 <= x <= U128_MAX

  /** A 32-byte identifier, read as a big-endian number. */
  type Id32 = x: int | 0 <= x < 0x1_0000_0000_0000_0000_0000_0000_0000_0000_0000_0000_0000_0000_0000_0000_0000_0000
  const ZERO_ID: Id32 := 0

  /** `u32::saturating_add`. */
  function SaturatingAdd32(a: U32, b: U32): U32 {
    if a + b > U32_MAX then U32_MAX else a + b
  }
}
