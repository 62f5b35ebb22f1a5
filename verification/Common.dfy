/** Types shared by every component: optional values, results, and the machine integer ranges. */
module Common {

  datatype Option<+T> = None | Some(value: T)

  /** A failure-compatible result, so `:-` propagates errors. */
  datatype Result<+T, +E> = Ok(value: T) | Err(error: E) {
    predicate IsFailure() {
      Err?
    }

    function PropagateFailure<U>(): Result<U, E>
      requires Err?
    {
      Err(error)
    }

    function Extract(): T
      requires Ok?
    {
      value
    }
  }

  const U32_LIMIT: nat := 0x1_0000_0000
  const U64_LIMIT: nat := 0x1_0000_0000_0000_0000

  type byte = b: int | 0 <= b < 256
  type u32 = n: int | 0 <= n < U32_LIMIT
  type u64 = n: int | 0 <= n < U64_LIMIT

  /** Whole seconds; the longest life of a grant, a wait and an approval window. */
  const MAX_TTL_SECS: nat := 24 * 60 * 60

  /** A validated time-to-live. */
  type Ttl = t: nat | 0 < t <= MAX_TTL_SECS witness 1
}
