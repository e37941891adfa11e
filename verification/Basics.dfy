/** The conventional optional value, shared by every module. */
module Options {
  datatype Option<+T> = None | Some(value: T)
}

/** Instants are whole nanoseconds since the Unix epoch, the resolution of the worker's clock. */
module Clock {
  type Time = int

  const SECOND: int := 1_000_000_000
  const HOUR: int := 3600 * SECOND
  const DAY: int := 24 * HOUR

  /** What the key-value store gives back for a stored check time: sub-second digits are lost. */
  function Truncated(t: Time): (r: Time)
    ensures WholeSecond(r) && r <= t < r + SECOND
  {
    t / SECOND * SECOND
  }

  predicate WholeSecond(t: Time) {
    t % SECOND == 0
  }

  function Later(a: Time, b: Time): Time {
    if a < b then b else a
  }
}

/** Machine widths and the arithmetic that stops at them. */
module Numbers {
  const U16_MAX: nat := 0xFFFF
  const U32: nat := 0x1_0000_0000
  const U64_MAX: nat := 0xFFFF_FFFF_FFFF_FFFF

  function Min(a: nat, b: nat): nat {
    if a < b then a else b
  }

  function Max(a: nat, b: nat): nat {
    if a < b then b else a
  }

  /** Subtraction that stops at zero. */
  function SaturatingSub(a: nat, b: nat): nat {
    if a < b then 0 else a - b
  }
}
