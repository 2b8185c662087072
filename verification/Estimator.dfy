/** internal/prober/adaptive.go: the retransmission-timeout estimator of one target. The functions
    give the meaning of each operation on a value; the class AdaptiveStats updates its fields in
    place, as the program does, and is proved against them. */
module Estimator {
  import opened Units

  const ALPHA: real := 0.125
  const BETA: real := 0.25
  const GRANULARITY: real := 0.001
  const MIN_RTO: real := 0.2
  const MAX_RTO: real := 3.0

  /** All quantities in seconds. */
  datatype Estimate = Estimate(srtt: real, rttvar: real, rto: real, consecutiveTimeouts: nat)

  function Initial(baseTimeout: int): Estimate {
    Estimate(0.0, 0.0, Seconds(baseTimeout), 0)
  }

  function Updated(e: Estimate, rtt: real): Estimate {
    var rttvar := if e.srtt == 0.0 then rtt / 2.0 else (1.0 - BETA) * e.rttvar + BETA * Abs(e.srtt - rtt);
    var srtt := if e.srtt == 0.0 then rtt else (1.0 - ALPHA) * e.srtt + ALPHA * rtt;
    Estimate(srtt, rttvar, srtt + Max(GRANULARITY, 4.0 * rttvar), 0)
  }

  function BackedOff(e: Estimate): Estimate {
    var rto := if e.consecutiveTimeouts >= 1 then Min(e.rto * 2.0, MAX_RTO) else e.rto;
    e.(rto := rto, consecutiveTimeouts := e.consecutiveTimeouts + 1)
  }

  /** The clamped timeout in seconds: the floor is applied after the cap. */
  function ClampedRto(e: Estimate): real {
    Max(Min(e.rto, MAX_RTO), Max(MIN_RTO, 2.0 * e.srtt))
  }

  /** The timeout in force, in nanoseconds; the conversion to time.Duration drops the fraction. */
  function CurrentRto(e: Estimate): int {
    (ClampedRto(e) * 1_000_000_000.0).Floor
  }

  class AdaptiveStats {
    var srtt: real
    var rttvar: real
    var rto: real
    var consecutiveTimeouts: nat

    ghost function View(): Estimate
      reads this
    {
      Estimate(srtt, rttvar, rto, consecutiveTimeouts)
    }

    constructor (baseTimeout: int)
      ensures View() == Initial(baseTimeout)
    {
      srtt, rttvar, rto, consecutiveTimeouts := 0.0, 0.0, Seconds(baseTimeout), 0;
    }

    method Update(rttSeconds: real)
      modifies this
      ensures View() == Updated(old(View()), rttSeconds)
    {
      consecutiveTimeouts := 0;
      if srtt == 0.0 {
        srtt := rttSeconds;
        rttvar := rttSeconds / 2.0;
      } else {
        rttvar := (1.0 - BETA) * rttvar + BETA * Abs(srtt - rttSeconds);
        srtt := (1.0 - ALPHA) * srtt + ALPHA * rttSeconds;
      }
      rto := srtt + Max(GRANULARITY, 4.0 * rttvar);
    }

    method Backoff()
      modifies this
      ensures View() == BackedOff(old(View()))
    {
      consecutiveTimeouts := consecutiveTimeouts + 1;
      if consecutiveTimeouts > 1 {
        rto := Min(rto * 2.0, MAX_RTO);
      }
    }

    method CurrentRTO() returns (timeout: int)
      ensures timeout == CurrentRto(View())
    {
      var floor := Max(MIN_RTO, 2.0 * srtt);
      var val := Max(Min(rto, MAX_RTO), floor);
      timeout := (val * 1_000_000_000.0).Floor;
    }
  }
}
