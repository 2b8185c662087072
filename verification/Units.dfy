/** Time units and small arithmetic facts shared by the prober model. Instants and durations are
    whole nanoseconds, as in Go's time package; the estimator works in seconds. */
module Units {

  /** One second in nanoseconds. */
  const SECOND: int := 1_000_000_000

  datatype Option<+T> = None | Some(value: T)

  /** time.Duration.Seconds, without the rounding of a 64-bit float. */
  function Seconds(ns: int): real {
    ns as real / 1_000_000_000.0
  }

  function Min(a: real, b: real): real { if a <= b then a else b }

  function Max(a: real, b: real): real { if a >= b then a else b }

  function Abs(a: real): real { if a >= 0.0 then a else -a }

  function Power(base: real, n: nat): real {
    if n == 0 then 1.0 else base * Power(base, n - 1)
  }

  lemma Reassociate(a: real, b: real, c: real)
    ensures a * (b * c) == b * (a * c)
  {
  }
}
