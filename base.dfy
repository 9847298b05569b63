/**
 * Shared vocabulary: optional values, the errors the delivery system throws,
 * and JavaScript's `Math.round` on exact reals.
 */
module Base {

  datatype Option<+T> = None | Some(value: T)

  /** One constructor per `throw new Error(...)` of the modelled code. */
  datatype Error =
    | NegativeCostInput                         // 'Cost, weight, and distance must be non-negative'
    | UnableToSchedule                          // 'Unable to schedule remaining packages'
    | WrongFieldCount(expected: nat, got: nat)  // 'Expected N values ...' / 'Expected 3 fields ..., got K'
    | NotANumber                                // '... must be numbers'
    | NegativeValue                             // '... must be non-negative'
    | NotPositiveInteger                        // 'Number of vehicles must be a positive integer'
    | NotPositive                               // 'Max speed and capacity must be positive'

  datatype Result<+T> = Ok(value: T) | Err(error: Error)

  /**
   * `Math.round`: the integer nearest to `x`, halves rounded towards +infinity
   * (so 2.5 rounds to 3 and -2.5 to -2).
   */
  function Round(x: real): (r: int)
    ensures x - 1.0 / 2.0 < r as real <= x + 1.0 / 2.0
  {
    (x + 1.0 / 2.0).Floor
  }

  lemma RoundOfInteger(n: int)
    ensures Round(n as real) == n
  {
  }

  lemma RoundMonotone(x: real, y: real)
    requires x <= y
    ensures Round(x) <= Round(y)
  {
  }

  function Max(a: real, b: real): (r: real)
    ensures r >= a && r >= b && (r == a || r == b)
  {
    if a >= b then a else b
  }
}
