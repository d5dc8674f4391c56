/** Failure-compatible wrappers and the fixed-width integer limits the source relies on. */
module Wrappers {

  datatype Option<+T> = None | Some(value: T) {
    function GetOr(default: T): T {
      match this
      case Some(v) => v
      case None => default
    }
    /** Rust's `Option::or`: this value when present, else `other`. */
    function Or(other: Option<T>): Option<T> {
      if Some? then this else other
    }
  }

  /** A `Result<T, String>`: the source reports every error as a message. */
  datatype Result<+T> = Ok(value: T) | Err(msg: string) {
    predicate IsFailure() { Err? }
    function PropagateFailure<U>(): Result<U>
      requires Err?
    {
      Err(msg)
    }
    function Extract(): T
      requires Ok?
    {
      value
    }
  }

  /** A `Result<(), String>`: success carries no value. */
  datatype Outcome = Pass | Fail(msg: string)

  const U8_LIMIT: nat := 0x100
  const U32_LIMIT: nat := 0x1_0000_0000
  /** The target is 64-bit, so `usize` and `u64` share this limit. */
  const U64_LIMIT: nat := 0x1_0000_0000_0000_0000
  const U64_MAX: nat := U64_LIMIT - 1

  type byte = b: nat | b < U8_LIMIT
  type u32 = x: nat | x < U32_LIMIT
  type u64 = x: nat | x < U64_LIMIT
}
