/** Recovery after a latency jump, the purpose of the backoff: on a steady link an echo is matched again within
    a bounded number of ticks if the RTT is within reach of the timeout cap max(3 s, 2*SRTT), and never if it
    is not. The drain precedes the sweep, so how far the cap reaches depends on the spacing of the ticks. */
module Recovery {
  import opened Units
  import opened Estimator
  import opened EstimatorRuns
  import opened ProbeLoop
  import opened Conservation
  import opened LinkState
  import opened Timing
  import opened AdaptiveLoop

  // ----- Ages on a grid -----

  /** The duration is a whole number of grid units: of nanoseconds for ticks at any time, of intervals for
      ticks exactly one interval apart. */
  ghost predicate OnGrid(x: int, grid: nat) {
    exists j: nat :: x == Intervals(j, grid)
  }

  /** The largest duration on the grid that a timeout spares. */
  function Spared(timeout: nat, grid: nat): int
    requires grid > 0
  {
    DivisionLeavesLess(timeout, grid);
    Intervals(timeout / grid, grid)
  }

  /** The smallest duration on the grid at which a timeout loses a probe. */
  function Reach(timeout: nat, grid: nat): int
    requires grid > 0
  {
    Spared(timeout, grid) + grid
  }

  lemma {:induction false} IntervalsAdd(i: nat, j: nat, grid: nat)
    ensures Intervals(i + j, grid) == Intervals(i, grid) + Intervals(j, grid)
  {
    if j == 0 {
    } else {
      IntervalsAdd(i, j - 1, grid);
    }
  }

  lemma GridAdds(x: int, y: int, grid: nat)
    requires OnGrid(x, grid) && OnGrid(y, grid)
    ensures OnGrid(x + y, grid)
  {
    var i: nat :| x == Intervals(i, grid);
    var j: nat :| y == Intervals(j, grid);
    IntervalsAdd(i, j, grid);
  }

  lemma ZeroOnGrid(grid: nat)
    ensures OnGrid(0, grid)
  {
    assert Intervals(0, grid) == 0;
  }

  /** A grid of one nanosecond is no restriction on when the ticks come. */
  lemma AnyOnNanosecondGrid(x: nat)
    ensures OnGrid(x, 1)
  {
    IntervalsAreMultiples(x, 1);
  }

  /** On the grid, at most the timeout means at most what it spares, and more than it means its reach. */
  lemma GridGap(x: int, timeout: nat, grid: nat)
    requires OnGrid(x, grid) && grid > 0
    ensures if x <= timeout then x <= Spared(timeout, grid) else x >= Reach(timeout, grid)
  {
    var j: nat :| x == Intervals(j, grid);
    DivisionLeavesLess(timeout, grid);
    var q := timeout / grid;
    IntervalsAreMultiples(q + 1, grid);
    if j <= q {
      MoreIntervals(j, q, grid);
      IntervalsAreMultiples(q, grid);
      assert timeout == q * grid + timeout % grid;
    } else {
      MoreIntervals(q + 1, j, grid);
    }
  }

  lemma SparedGrows(low: nat, high: nat, grid: nat)
    requires low <= high && grid > 0
    ensures 0 <= Spared(low, grid) <= low && Spared(low, grid) <= Spared(high, grid)
  {
    DivisionLeavesLess(low, grid);
    IntervalsAreMultiples(low / grid, grid);
    assert low == low / grid * grid + low % grid;
    MoreIntervals(0, low / grid, grid);
    var j: nat := low / grid;
    assert OnGrid(Spared(low, grid), grid);
    GridGap(Spared(low, grid), high, grid);
  }

  lemma ReachOfNanoseconds(timeout: nat)
    ensures Spared(timeout, 1) == timeout && Reach(timeout, 1) == timeout + 1
  {
    IntervalsAreMultiples(timeout, 1);
  }

  lemma ReachOfIntervals(timeout: nat, interval: nat)
    requires interval > 0
    ensures Reach(timeout, interval) == (timeout / interval + 1) * interval
  {
    DivisionLeavesLess(timeout, interval);
    IntervalsAreMultiples(timeout / interval + 1, interval);
  }

  // ----- The link after the jump -----

  /** A tick that keeps to the timer, writes a probe and goes on. Every probe numbered above a given one
      that is at least rtt old has its echo in the queue; nothing is assumed of earlier probes. */
  ghost predicate SteadyTick(cfg: Config, s: State, t: TickInput, rtt: int, after: nat, grid: nat) {
    && s.mode.Probing? && LegalTick(cfg, s, t) && !Reconnects(cfg, s.mode.started, t) && t.write.Ok?
    && OnGrid(t.now - LastTick(s.log), grid)
    && forall n :: n in s.pending && n > after && t.now - s.pending[n] >= rtt ==> Answered(s, n, t.drained)
  }

  ghost predicate SteadyAt(cfg: Config, s: State, steps: seq<Step>, i: nat, rtt: int, grid: nat)
    requires i < |steps|
  {
    steps[i].Tick? && SteadyTick(cfg, RunFrom(cfg, s, steps[..i]), steps[i].input, rtt, s.seqNo, grid)
  }

  ghost predicate SteadyLinkFrom(cfg: Config, s: State, steps: seq<Step>, rtt: int, grid: nat) {
    forall i :: 0 <= i < |steps| ==> SteadyAt(cfg, s, steps, i, rtt, grid)
  }

  // ----- Counting echoes -----

  lemma StepCounts(cfg: Config, s: State, step: Step)
    ensures Next(cfg, s, step).rttCount >= s.rttCount
  {
    if step.Tick? && s.mode.Probing? {
      DrainCounts(cfg, s, step.input.drained);
      TickEndObservesNothing(cfg, DrainAndSweep(cfg, s, step.input), step.input.now, step.input.write);
    }
  }

  lemma {:induction false} RunCounts(cfg: Config, s: State, steps: seq<Step>, i: nat, j: nat)
    requires i <= j <= |steps|
    ensures RunFrom(cfg, s, steps[..i]).rttCount <= RunFrom(cfg, s, steps[..j]).rttCount
  {
    if i == j {
    } else {
      RunCounts(cfg, s, steps, i, j - 1);
      OneMoreFrom(cfg, s, steps, j - 1);
      StepCounts(cfg, RunFrom(cfg, s, steps[..j - 1]), steps[j - 1]);
    }
  }

  // ----- Backoffs without an echo -----

  /** The estimate after j timeouts in a row. */
  function BackedOffTimes(e: Estimate, j: nat): Estimate {
    if j == 0 then e else BackedOff(BackedOffTimes(e, j - 1))
  }

  lemma {:induction false} BackoffsAdd(e: Estimate, i: nat, j: nat)
    ensures BackedOffTimes(BackedOffTimes(e, i), j) == BackedOffTimes(e, i + j)
  {
    if j == 0 {
    } else {
      BackoffsAdd(e, i, j - 1);
    }
  }

  lemma {:induction false} BackoffsGrow(e: Estimate, j: nat)
    requires e.rto > 0.0
    ensures var b := BackedOffTimes(e, j);
            && b.srtt == e.srtt && b.consecutiveTimeouts == e.consecutiveTimeouts + j
            && b.rto > 0.0 && CurrentRto(b) >= CurrentRto(e)
  {
    if j == 0 {
    } else {
      BackoffsGrow(e, j - 1);
      BackoffNeverShortens(BackedOffTimes(e, j - 1));
    }
  }

  /** All timeouts but possibly the first double the RTO, up to the cap. */
  lemma {:induction false} BackoffsDouble(e: Estimate, j: nat)
    requires e.rto > 0.0 && j >= 1
    ensures BackedOffTimes(e, j).rto >= Min(Doublings(e.rto, j), 3.0)
  {
    if j == 1 {
      assert BackedOffTimes(e, 1) == BackedOff(e);
    } else {
      BackoffsDouble(e, j - 1);
      BackoffsGrow(e, j - 1);
      DoublingKeepsOrder(Doublings(e.rto, j - 1), BackedOffTimes(e, j - 1).rto);
    }
  }

  lemma DoublingKeepsOrder(x: real, y: real)
    requires y > 0.0 && y >= Min(x, 3.0)
    ensures Min(y * 2.0, 3.0) >= Min(2.0 * x, 3.0)
  {
  }

  /** The timeouts in a row that saturate the RTO, from a measured or from any initial one. */
  function Saturating(ops: seq<Op>): nat {
    if HasSample(ops) then 13 else 33
  }

  lemma {:induction false} PowersAdd(i: nat, j: nat)
    ensures Power(2.0, i + j) == Power(2.0, i) * Power(2.0, j)
  {
    if j == 0 {
    } else {
      PowersAdd(i, j - 1);
      var x, y := Power(2.0, i), Power(2.0, j - 1);
      assert x * (2.0 * y) == 2.0 * (x * y);
    }
  }

  lemma BigPowers()
    ensures Power(2.0, 12) == 4096.0 && Power(2.0, 32) == 4294967296.0
  {
    assert Power(2.0, 4) == 16.0;
    PowersAdd(4, 4);
    PowersAdd(8, 4);
    PowersAdd(8, 8);
    PowersAdd(16, 16);
  }

  lemma {:induction false} RtoFloor(base: int, ops: seq<Op>)
    requires base > 0
    requires Causal(ops)
    ensures Fold(base, ops).srtt >= 0.0
    ensures Fold(base, ops).rto >= if HasSample(ops) then 0.001 else 0.000000001
  {
    if ops == [] {
    } else {
      var n := |ops| - 1;
      assert forall i :: 0 <= i < n ==> ops[..n][i] == ops[i];
      RtoFloor(base, ops[..n]);
      if ops[n].Expired? && HasSample(ops) {
        var i :| 0 <= i < |ops| && ops[i].Measured?;
        assert ops[..n][i].Measured?;
      }
    }
  }

  lemma SaturatedTimeout(base: int, ops: seq<Op>, j: nat)
    requires base > 0
    requires Causal(ops)
    requires j >= Saturating(ops)
    ensures CurrentRto(BackedOffTimes(Fold(base, ops), j)) == TimeoutCap(Fold(base, ops).srtt)
  {
    var e, c := Fold(base, ops), Saturating(ops);
    RtoFloor(base, ops);
    EnoughDoublings(e.rto, HasSample(ops));
    BackoffsDouble(e, c);
    BackoffsGrow(e, c);
    BackoffsAdd(e, c, j - c);
    StaysSaturated(BackedOffTimes(e, c), j - c);
  }

  lemma EnoughDoublings(rto: real, measured: bool)
    requires rto >= if measured then 0.001 else 0.000000001
    ensures Doublings(rto, if measured then 13 else 33) >= 3.0
  {
    BigPowers();
    DoublingsArePowers(rto, if measured then 13 else 33);
  }

  lemma StaysSaturated(e: Estimate, j: nat)
    requires e.rto >= 3.0
    ensures CurrentRto(BackedOffTimes(e, j)) == TimeoutCap(e.srtt)
  {
    BackoffsGrow(e, j);
    ClampBounds(BackedOffTimes(e, j));
    assert ClampedRto(e) == Max(3.0, 2.0 * e.srtt);
  }

  // ----- One tick without an echo -----

  /** What a tick that matches nothing does: it sends a probe, it either leaves the estimate alone or backs
      it off once, and a probe sent after the jump is younger than the RTT and either stays pending or is
      lost because it is older than the timeout. */
  ghost predicate Silent(s: State, next: State, now: int, rtt: int, after: nat) {
    && next.mode == s.mode && next.seqNo == s.seqNo + 1 && LastTick(next.log) == now <= Clock(next.log)
    && next.seqNo in next.pending && next.pending[next.seqNo] == now
    && (next.est == s.est || next.est == BackedOff(s.est))
    && (forall w :: w in s.pending && after < w <= s.seqNo ==>
          && now - s.pending[w] < rtt
          && (|| (w in next.pending && next.pending[w] == s.pending[w])
              || (next.est == BackedOff(s.est) && CurrentRto(s.est) < now - s.pending[w])))
  }

  lemma SilentTick(cfg: Config, s: State, t: TickInput, rtt: int, after: nat, grid: nat)
    requires cfg.adaptive && SteadyTick(cfg, s, t, rtt, after, grid)
    requires Next(cfg, s, Tick(t)).rttCount == s.rttCount
    ensures Silent(s, Next(cfg, s, Tick(t)), t.now, rtt, after)
  {
    DrainCounts(cfg, s, t.drained);
    var swept := DrainAndSweep(cfg, s, t);
    assert Next(cfg, s, Tick(t)) == Register(swept, t.now);
    assert Drain(cfg, s, t.drained) == s;
    forall w | w in s.pending && after < w <= s.seqNo ensures t.now - s.pending[w] < rtt {
      if t.now - s.pending[w] >= rtt { AnsweredIsResolved(cfg, s, w, t.drained); }
    }
  }

  // ----- A probe watched until its echo is due -----

  /** u has just sent a probe. */
  ghost predicate HasSent(u: State) {
    && u.mode.Probing? && u.seqNo in u.pending && u.pending[u.seqNo] == LastTick(u.log) <= Clock(u.log)
    && u.est.rto > 0.0
  }

  /** The latest probe of u, k silent ticks later: still pending and not yet due, or lost to a timeout whose
      reach is below the RTT. */
  ghost predicate Watched(cfg: Config, u: State, v: State, k: nat, rtt: int, grid: nat)
    requires grid > 0
  {
    && HasSent(v) && v.seqNo >= u.seqNo
    && v.est.consecutiveTimeouts >= u.est.consecutiveTimeouts
    && v.est == BackedOffTimes(u.est, v.est.consecutiveTimeouts - u.est.consecutiveTimeouts)
    && (|| (&& u.seqNo in v.pending && v.pending[u.seqNo] == LastTick(u.log)
            && LastTick(v.log) >= LastTick(u.log) + Intervals(k, cfg.interval)
            && OnGrid(LastTick(v.log) - LastTick(u.log), grid)
            && (k >= 1 ==> LastTick(v.log) - LastTick(u.log) < rtt))
        || (&& v.est.consecutiveTimeouts > u.est.consecutiveTimeouts
            && TimeoutReaches(u.est, grid) < rtt))
  }

  function TimeoutReaches(e: Estimate, grid: nat): int
    requires grid > 0
  {
    ClampBounds(e);
    Reach(CurrentRto(e), grid)
  }

  lemma LostBelow(u: Estimate, v: Estimate, age: int, rtt: int, grid: nat)
    requires grid > 0 && OnGrid(age, grid) && CurrentRto(u) <= CurrentRto(v) < age < rtt
    ensures TimeoutReaches(u, grid) < rtt
  {
    ClampBounds(u);
    GridGap(age, CurrentRto(u), grid);
  }

  lemma WatchOn(cfg: Config, u: State, v: State, next: State, k: nat, now: int, rtt: int, after: nat, grid: nat)
    requires grid > 0 && Watched(cfg, u, v, k, rtt, grid) && Silent(v, next, now, rtt, after)
    requires now >= LastTick(v.log) + cfg.interval && OnGrid(now - LastTick(v.log), grid)
    requires u.seqNo > after && u.est.rto > 0.0
    ensures Watched(cfg, u, next, k + 1, rtt, grid)
  {
    var j := v.est.consecutiveTimeouts - u.est.consecutiveTimeouts;
    assert BackedOffTimes(u.est, j + 1) == BackedOff(BackedOffTimes(u.est, j));
    BackoffsGrow(u.est, j);
    if u.seqNo in v.pending && v.pending[u.seqNo] == LastTick(u.log) && OnGrid(LastTick(v.log) - LastTick(u.log), grid) {
      GridAdds(LastTick(v.log) - LastTick(u.log), now - LastTick(v.log), grid);
      if CurrentRto(v.est) < now - LastTick(u.log) < rtt { LostBelow(u.est, v.est, now - LastTick(u.log), rtt, grid); }
    }
  }

  // ----- Runs without an echo, state by state -----

  ghost predicate SilentOn(cfg: Config, v: State, next: State, now: int, rtt: int, after: nat, grid: nat) {
    now >= Clock(v.log) + cfg.interval && OnGrid(now - LastTick(v.log), grid) && Silent(v, next, now, rtt, after)
  }

  /** The states between the ticks of a run that matches nothing. */
  ghost predicate AllSilent(cfg: Config, states: seq<State>, nows: seq<int>, rtt: int, grid: nat) {
    && |states| == |nows| + 1
    && forall i :: 0 <= i < |nows| ==> SilentOn(cfg, states[i], states[i + 1], nows[i], rtt, states[0].seqNo, grid)
  }

  lemma {:induction false} SilentStates(cfg: Config, s: State, steps: seq<Step>, n: nat, rtt: int, grid: nat)
      returns (states: seq<State>, nows: seq<int>)
    requires cfg.adaptive && SteadyLinkFrom(cfg, s, steps, rtt, grid) && n <= |steps|
    requires RunFrom(cfg, s, steps[..n]).rttCount == s.rttCount
    ensures AllSilent(cfg, states, nows, rtt, grid) && |nows| == n
    ensures states[0] == s && states[n] == RunFrom(cfg, s, steps[..n])
  {
    if n == 0 {
      assert steps[..0] == [];
      states, nows := [s], [];
    } else {
      var m := n - 1;
      assert steps[..0] == [];
      RunCounts(cfg, s, steps, 0, m);
      RunCounts(cfg, s, steps, m, n);
      OneMoreFrom(cfg, s, steps, m);
      var earlier, before := SilentStates(cfg, s, steps, m, rtt, grid);
      assert SteadyAt(cfg, s, steps, m, rtt, grid);
      var v, t := RunFrom(cfg, s, steps[..m]), steps[m].input;
      SilentTick(cfg, v, t, rtt, s.seqNo, grid);
      states, nows := earlier + [Next(cfg, v, Tick(t))], before + [t.now];
    }
  }

  lemma {:induction false} Watch(cfg: Config, states: seq<State>, nows: seq<int>, i: nat, m: nat, rtt: int, grid: nat)
    requires grid > 0 && AllSilent(cfg, states, nows, rtt, grid) && i <= m <= |nows|
    requires HasSent(states[i]) && states[i].seqNo > states[0].seqNo
    ensures Watched(cfg, states[i], states[m], m - i, rtt, grid)
  {
    if m == i {
      ZeroOnGrid(grid);
    } else {
      Watch(cfg, states, nows, i, m - 1, rtt, grid);
      assert SilentOn(cfg, states[m - 1], states[m - 1 + 1], nows[m - 1], rtt, states[0].seqNo, grid);
      WatchOn(cfg, states[i], states[m - 1], states[m], m - 1 - i, nows[m - 1], rtt, states[0].seqNo, grid);
    }
  }

  /** The ticks until a probe's echo is due. */
  function Window(cfg: Config, rtt: nat): nat
    requires ValidConfig(cfg)
  {
    DivisionLeavesLess(rtt, cfg.interval);
    rtt / cfg.interval + 1
  }

  /** The first tick, and m windows after it. */
  function TicksOf(m: nat, window: nat): nat {
    if m == 0 then 1 else TicksOf(m - 1, window) + window
  }

  lemma {:induction false} TicksOfIsLinear(m: nat, window: nat)
    ensures TicksOf(m, window) == 1 + m * window
  {
    if m == 0 {
    } else {
      TicksOfIsLinear(m - 1, window);
    }
  }

  /** v has come from s without an echo, through at least m backoffs, and has just sent a probe. */
  ghost predicate BackedOffBy(s: State, v: State, m: nat) {
    && HasSent(v) && v.seqNo > s.seqNo
    && v.est.consecutiveTimeouts >= s.est.consecutiveTimeouts + m
    && v.est == BackedOffTimes(s.est, v.est.consecutiveTimeouts - s.est.consecutiveTimeouts)
  }

  lemma FirstSilentTick(cfg: Config, states: seq<State>, nows: seq<int>, rtt: nat, grid: nat)
    requires AllSilent(cfg, states, nows, rtt, grid) && 1 <= |nows| && states[0].est.rto > 0.0 && states[0].mode.Probing?
    ensures BackedOffBy(states[0], states[1], 0)
  {
    assert SilentOn(cfg, states[0], states[0 + 1], nows[0], rtt, states[0].seqNo, grid);
    assert BackedOffTimes(states[0].est, 1) == BackedOff(states[0].est);
    BackoffsGrow(states[0].est, 1);
  }

  /** A window without an echo loses its watched probe, to a timeout whose reach is below the RTT. */
  lemma SilentWindow(cfg: Config, s: State, u: State, v: State, m: nat, rtt: nat, grid: nat)
    requires ValidConfig(cfg) && grid > 0 && BackedOffBy(s, u, m) && Watched(cfg, u, v, Window(cfg, rtt), rtt, grid)
    ensures BackedOffBy(s, v, m + 1) && TimeoutReaches(u.est, grid) < rtt
  {
    var w := Window(cfg, rtt);
    DivisionLeavesLess(rtt, cfg.interval);
    IntervalsAreMultiples(w, cfg.interval);
    BackoffsAdd(s.est, u.est.consecutiveTimeouts - s.est.consecutiveTimeouts,
                v.est.consecutiveTimeouts - u.est.consecutiveTimeouts);
  }

  lemma OneMoreWindow(cfg: Config, states: seq<State>, nows: seq<int>, i: nat, m: nat, rtt: nat, grid: nat)
    requires ValidConfig(cfg) && grid > 0 && AllSilent(cfg, states, nows, rtt, grid)
    requires i + Window(cfg, rtt) <= |nows| && BackedOffBy(states[0], states[i], m)
    ensures BackedOffBy(states[0], states[i + Window(cfg, rtt)], m + 1) && TimeoutReaches(states[i].est, grid) < rtt
  {
    Watch(cfg, states, nows, i, i + Window(cfg, rtt), rtt, grid);
    SilentWindow(cfg, states[0], states[i], states[i + Window(cfg, rtt)], m, rtt, grid);
  }

  /** After m windows without an echo the estimate has been backed off at least m times. */
  lemma {:induction false} WindowsBackOff(cfg: Config, states: seq<State>, nows: seq<int>, m: nat, rtt: nat, grid: nat)
    requires ValidConfig(cfg) && grid > 0 && AllSilent(cfg, states, nows, rtt, grid)
    requires TicksOf(m, Window(cfg, rtt)) <= |nows| && states[0].est.rto > 0.0 && states[0].mode.Probing?
    ensures BackedOffBy(states[0], states[TicksOf(m, Window(cfg, rtt))], m)
  {
    if m == 0 {
      FirstSilentTick(cfg, states, nows, rtt, grid);
    } else {
      WindowsBackOff(cfg, states, nows, m - 1, rtt, grid);
      OneMoreWindow(cfg, states, nows, TicksOf(m - 1, Window(cfg, rtt)), m - 1, rtt, grid);
    }
  }

  // ----- Within reach of the cap: recovery -----

  /** How many ticks recovery takes at most. */
  function RecoveryTicks(cfg: Config, ops: seq<Op>, rtt: nat): nat
    requires ValidConfig(cfg)
  {
    1 + (Saturating(ops) + 1) * Window(cfg, rtt)
  }

  /** How far the cap on the timeout reaches, for a given SRTT. */
  function CapReaches(srtt: real, grid: nat): int
    requires grid > 0
  {
    CapIsPositive(srtt);
    Reach(TimeoutCap(srtt), grid)
  }

  lemma CapIsPositive(srtt: real)
    ensures TimeoutCap(srtt) >= 3 * SECOND
  {
    assert Max(3.0, 2.0 * srtt) * 1_000_000_000.0 >= 3_000_000_000.0;
  }

  lemma MeasuredEstimate(cfg: Config, before: seq<Step>)
    requires ValidConfig(cfg) && CausalRtts(cfg, Run(cfg, before).log)
    ensures Run(cfg, before).est.rto > 0.0
    ensures Run(cfg, before).est == Fold(cfg.baseTimeout, Observed(cfg, Run(cfg, before).log))
  {
    StateIsHistory(cfg, before);
    RtoFloor(cfg.baseTimeout, Observed(cfg, Run(cfg, before).log));
  }

  /** From any reachable state of a session in adaptive mode, on a link whose RTT is from now on within reach
      of the cap, an echo is matched within RecoveryTicks ticks, however far the timeout is below the RTT at
      first: each probe lost before its echo is due backs the timeout off, and once it has reached the cap
      no probe is lost. */
  lemma RecoversFromJump(cfg: Config, before: seq<Step>, steps: seq<Step>, rtt: nat, grid: nat)
    requires ValidConfig(cfg) && cfg.adaptive && Run(cfg, before).mode.Probing? && grid > 0
    requires CausalRtts(cfg, Run(cfg, before).log) && rtt <= CapReaches(Run(cfg, before).est.srtt, grid)
    requires SteadyLinkFrom(cfg, Run(cfg, before), steps, rtt, grid)
    requires |steps| >= RecoveryTicks(cfg, Observed(cfg, Run(cfg, before).log), rtt)
    ensures RunFrom(cfg, Run(cfg, before), steps[..RecoveryTicks(cfg, Observed(cfg, Run(cfg, before).log), rtt)]).rttCount
            > Run(cfg, before).rttCount
  {
    var s := Run(cfg, before);
    var ops := Observed(cfg, s.log);
    var n := RecoveryTicks(cfg, ops, rtt);
    MeasuredEstimate(cfg, before);
    assert steps[..0] == [];
    RunCounts(cfg, s, steps, 0, n);
    if RunFrom(cfg, s, steps[..n]).rttCount == s.rttCount {
      TicksOfIsLinear(Saturating(ops) + 1, Window(cfg, rtt));
      var states, nows := SilentStates(cfg, s, steps, n, rtt, grid);
      NoEchoIsTooLong(cfg, states, nows, ops, Saturating(ops), rtt, grid);
    }
  }

  /** Enough silent windows to saturate the timeout leave no room for one more. */
  lemma NoEchoIsTooLong(cfg: Config, states: seq<State>, nows: seq<int>, ops: seq<Op>, m: nat, rtt: nat, grid: nat)
    requires ValidConfig(cfg) && grid > 0 && AllSilent(cfg, states, nows, rtt, grid) && states[0].mode.Probing?
    requires states[0].est == Fold(cfg.baseTimeout, ops)
    requires Causal(ops)
    requires rtt <= CapReaches(states[0].est.srtt, grid) && m >= Saturating(ops)
    ensures TicksOf(m + 1, Window(cfg, rtt)) > |nows|
  {
    if TicksOf(m + 1, Window(cfg, rtt)) <= |nows| {
      var i := TicksOf(m, Window(cfg, rtt));
      RtoFloor(cfg.baseTimeout, ops);
      WindowsBackOff(cfg, states, nows, m, rtt, grid);
      OneMoreWindow(cfg, states, nows, i, m, rtt, grid);
      SaturatedTimeout(cfg.baseTimeout, ops, states[i].est.consecutiveTimeouts - states[0].est.consecutiveTimeouts);
      assert false;
    }
  }

  // ----- Beyond reach of the cap: no recovery -----

  /** The ticks come on the grid and at most gap apart, and no echo comes back in less than rtt. */
  ghost predicate SlowTick(cfg: Config, s: State, t: TickInput, rtt: int, gap: int, grid: nat) {
    && LegalTick(cfg, s, t) && t.now <= LastTick(s.log) + gap && OnGrid(t.now - LastTick(s.log), grid)
    && forall r :: r in t.drained && Matches(s.pending, r) ==> r.recv - s.pending[r.seqNo] >= rtt
  }

  ghost predicate SlowAt(cfg: Config, s: State, steps: seq<Step>, i: nat, rtt: int, gap: int, grid: nat)
    requires i < |steps|
  {
    var before := RunFrom(cfg, s, steps[..i]);
    steps[i].Tick? && before.mode.Probing? ==> SlowTick(cfg, before, steps[i].input, rtt, gap, grid)
  }

  ghost predicate SlowLinkFrom(cfg: Config, s: State, steps: seq<Step>, rtt: int, gap: int, grid: nat) {
    forall i :: 0 <= i < |steps| ==> SlowAt(cfg, s, steps, i, rtt, gap, grid)
  }

  ghost predicate AgesOnGrid(s: State, grid: nat) {
    s.mode.Probing? ==> forall n :: n in s.pending ==> OnGrid(LastTick(s.log) - s.pending[n], grid)
  }

  /** Every probe in flight will still be too young at the next tick. */
  ghost predicate TooYoung(s: State, rtt: int, gap: int, grid: nat)
    requires grid > 0
  {
    AgesOnGrid(s, grid) && LastTimeout(s.log) >= 0 && rtt > Spared(LastTimeout(s.log), grid) + gap
  }

  lemma {:induction false} DrainOfUnmatched(cfg: Config, s: State, responses: seq<Response>)
    requires forall r :: r in responses ==> !Matches(s.pending, r)
    ensures Drain(cfg, s, responses) == s
    decreases |responses|
  {
    if responses == [] {
    } else {
      assert responses[0] in responses;
      DrainOfUnmatched(cfg, s, responses[1..]);
    }
  }

  lemma SlowTickMatchesNothing(cfg: Config, s: State, t: TickInput, rtt: int, gap: int, grid: nat)
    requires ValidConfig(cfg) && grid > 0 && s.mode.Probing? && Timely(cfg, s) && SlowTick(cfg, s, t, rtt, gap, grid)
    requires TooYoung(s, rtt, gap, grid)
    ensures Drain(cfg, s, t.drained) == s
  {
    forall r | r in t.drained ensures !Matches(s.pending, r) {
      if Matches(s.pending, r) {
        GridGap(LastTick(s.log) - s.pending[r.seqNo], LastTimeout(s.log), grid);
      }
    }
    DrainOfUnmatched(cfg, s, t.drained);
  }

  lemma SweepKeepsSrtt(cfg: Config, s: State, now: int, check: int, timeout: int)
    ensures var t := Sweep(cfg, s, now, check, timeout);
            && t.rttCount == s.rttCount && t.est.srtt == s.est.srtt && t.mode == s.mode && LastTick(t.log) == now
            && forall n :: n in t.pending ==> n in s.pending && t.pending[n] == s.pending[n]
  {
  }

  /** After a tick the pending probes are old ones, a grid step older, and the one just written. */
  lemma TickEndAges(s: State, now: int, result: WriteResult, grid: nat)
    requires s.mode.Probing? && LastTick(s.log) == now && AgesOnGrid(s, grid)
    ensures AgesOnGrid(FlushPending(s), grid) && AgesOnGrid(Write(s, now, result), grid)
  {
    ZeroOnGrid(grid);
  }

  lemma SlowTickAges(cfg: Config, s: State, t: TickInput, grid: nat)
    requires s.mode.Probing? && AgesOnGrid(s, grid) && OnGrid(t.now - LastTick(s.log), grid)
    requires Drain(cfg, s, t.drained) == s
    ensures AgesOnGrid(Next(cfg, s, Tick(t)), grid)
  {
    var swept := DrainAndSweep(cfg, s, t);
    SweepKeepsSrtt(cfg, s, t.now, t.check, Timeout(cfg, s.est));
    forall n | n in swept.pending ensures OnGrid(LastTick(swept.log) - swept.pending[n], grid) {
      GridAdds(LastTick(s.log) - s.pending[n], t.now - LastTick(s.log), grid);
    }
    TickEndAges(swept, t.now, t.write, grid);
  }

  /** A step matches nothing and leaves SRTT and the grid alone. */
  lemma SlowStep(cfg: Config, s: State, step: Step, rtt: int, gap: int, grid: nat)
    requires ValidConfig(cfg) && cfg.adaptive && grid > 0 && Timely(cfg, s) && TooYoung(s, rtt, gap, grid)
    requires step.Tick? && s.mode.Probing? ==> SlowTick(cfg, s, step.input, rtt, gap, grid)
    ensures var next := Next(cfg, s, step);
            next.rttCount == s.rttCount && next.est.srtt == s.est.srtt && AgesOnGrid(next, grid)
  {
    if step.Tick? && s.mode.Probing? {
      var t := step.input;
      SlowTickMatchesNothing(cfg, s, t, rtt, gap, grid);
      SlowTickAges(cfg, s, t, grid);
      SweepKeepsSrtt(cfg, s, t.now, t.check, Timeout(cfg, s.est));
      TickEndLosesNothing(DrainAndSweep(cfg, s, t), t.now, t.write);
      TickEndObservesNothing(cfg, DrainAndSweep(cfg, s, t), t.now, t.write);
    }
  }

  /** The timeouts of the steps to come stay below the cap, so the probes stay too young. */
  lemma StaysTooYoung(cfg: Config, s: State, step: Step, rtt: int, gap: nat, grid: nat)
    requires ValidConfig(cfg) && cfg.adaptive && grid > 0
    requires TooYoung(s, rtt, gap, grid) && AgesOnGrid(Next(cfg, s, step), grid)
    requires rtt > CapReaches(s.est.srtt, grid) - grid + gap
    ensures TooYoung(Next(cfg, s, step), rtt, gap, grid)
  {
    NextTimeout(cfg, s, step);
    ClampBounds(s.est);
    CapIsPositive(s.est.srtt);
    SparedGrows(CurrentRto(s.est), TimeoutCap(s.est.srtt), grid);
    SparedGrows(0, LastTimeout(s.log), grid);
  }

  /** What holds as long as nothing has been matched since s. */
  ghost predicate NothingSince(cfg: Config, s: State, u: State, rtt: int, gap: int, grid: nat)
    requires ValidConfig(cfg) && grid > 0
  {
    u.rttCount == s.rttCount && u.est.srtt == s.est.srtt && Timely(cfg, u) && TooYoung(u, rtt, gap, grid)
  }

  lemma {:induction false} NothingMatchedFrom(cfg: Config, s: State, steps: seq<Step>, i: nat, rtt: int, gap: nat, grid: nat)
    requires ValidConfig(cfg) && cfg.adaptive && grid > 0 && i <= |steps|
    requires SlowLinkFrom(cfg, s, steps, rtt, gap, grid) && NothingSince(cfg, s, s, rtt, gap, grid)
    requires rtt > CapReaches(s.est.srtt, grid) - grid + gap
    ensures NothingSince(cfg, s, RunFrom(cfg, s, steps[..i]), rtt, gap, grid)
  {
    if i == 0 {
      assert steps[..0] == [];
    } else {
      NothingMatchedFrom(cfg, s, steps, i - 1, rtt, gap, grid);
      var u := RunFrom(cfg, s, steps[..i - 1]);
      OneMoreFrom(cfg, s, steps, i - 1);
      assert SlowAt(cfg, s, steps, i - 1, rtt, gap, grid);
      SlowStep(cfg, u, steps[i - 1], rtt, gap, grid);
      NextTimely(cfg, u, steps[i - 1]);
      StaysTooYoung(cfg, u, steps[i - 1], rtt, gap, grid);
    }
  }

  /** Beyond what the cap spares plus the gap between ticks, the link does not recover: whatever else
      happens, through any backoffs, write failures and re-dials, no echo is ever matched. */
  lemma NothingMatchedAboveCap(cfg: Config, before: seq<Step>, steps: seq<Step>, rtt: int, gap: nat, grid: nat)
    requires ValidConfig(cfg) && cfg.adaptive && Legal(cfg, before) && grid > 0
    requires SlowLinkFrom(cfg, Run(cfg, before), steps, rtt, gap, grid) && TooYoung(Run(cfg, before), rtt, gap, grid)
    requires rtt > CapReaches(Run(cfg, before).est.srtt, grid) - grid + gap
    ensures RunFrom(cfg, Run(cfg, before), steps).rttCount == Run(cfg, before).rttCount
  {
    RunIsTimely(cfg, before);
    NothingMatchedFrom(cfg, Run(cfg, before), steps, |steps|, rtt, gap, grid);
    assert steps[..|steps|] == steps;
  }

  // ----- Ticks exactly one interval apart: the exact condition -----

  /** Every echo takes rtt and is queued when it is due; the ticks come exactly one interval apart. */
  ghost predicate PeriodicAt(cfg: Config, s: State, steps: seq<Step>, i: nat, rtt: int)
    requires i < |steps| && ValidConfig(cfg)
  {
    && SteadyAt(cfg, s, steps, i, rtt, cfg.interval)
    && SlowAt(cfg, s, steps, i, rtt, cfg.interval, cfg.interval)
  }

  ghost predicate PeriodicLinkFrom(cfg: Config, s: State, steps: seq<Step>, rtt: int)
    requires ValidConfig(cfg)
  {
    forall i :: 0 <= i < |steps| ==> PeriodicAt(cfg, s, steps, i, rtt)
  }

  lemma FreshSession(cfg: Config, before: seq<Step>, at: int)
    requires ValidConfig(cfg) && cfg.adaptive && Legal(cfg, before) && Run(cfg, before).mode.Dialing?
    requires CausalRtts(cfg, Run(cfg, before).log) && at >= Clock(Run(cfg, before).log)
    ensures var dialed := before + [Dial(true, at)];
            var s := Run(cfg, dialed);
            && Legal(cfg, dialed) && s.mode.Probing? && s.pending == map[] && LastTimeout(s.log) == 0
            && Observed(cfg, s.log) == Observed(cfg, Run(cfg, before).log)
  {
    OneStepMore(cfg, before, Dial(true, at));
    OneLegalStepMore(cfg, before, Dial(true, at));
    MeasuredEstimate(cfg, before);
  }

  lemma PeriodicFrom(cfg: Config, dialed: seq<Step>, steps: seq<Step>, rtt: nat)
    requires ValidConfig(cfg) && cfg.adaptive && Legal(cfg, dialed)
    requires var s := Run(cfg, dialed);
             s.mode.Probing? && s.pending == map[] && LastTimeout(s.log) == 0 && CausalRtts(cfg, s.log)
    requires PeriodicLinkFrom(cfg, Run(cfg, dialed), steps, rtt)
    requires |steps| >= RecoveryTicks(cfg, Observed(cfg, Run(cfg, dialed).log), rtt)
    ensures RunFrom(cfg, Run(cfg, dialed), steps).rttCount > Run(cfg, dialed).rttCount
            <==> rtt <= CapReaches(Run(cfg, dialed).est.srtt, cfg.interval)
  {
    var s := Run(cfg, dialed);
    PeriodicIsSteadyAndSlow(cfg, s, steps, rtt);
    assert steps[..|steps|] == steps;
    if rtt <= CapReaches(s.est.srtt, cfg.interval) {
      RecoversFromJump(cfg, dialed, steps, rtt, cfg.interval);
      RunCounts(cfg, s, steps, RecoveryTicks(cfg, Observed(cfg, s.log), rtt), |steps|);
    } else {
      CapIsPositive(s.est.srtt);
      SparedGrows(0, TimeoutCap(s.est.srtt), cfg.interval);
      NothingMatchedAboveCap(cfg, dialed, steps, rtt, cfg.interval, cfg.interval);
    }
  }

  /** From the start of any session in adaptive mode, with ticks exactly one interval apart and a constant
      RTT: an echo is matched within RecoveryTicks ticks exactly when the RTT is at most the first whole
      number of intervals above the cap; otherwise none is matched in any number of ticks. */
  lemma PeriodicRecoversIff(cfg: Config, before: seq<Step>, at: int, steps: seq<Step>, rtt: nat)
    requires ValidConfig(cfg) && cfg.adaptive && Legal(cfg, before) && Run(cfg, before).mode.Dialing?
    requires CausalRtts(cfg, Run(cfg, before).log) && at >= Clock(Run(cfg, before).log)
    requires PeriodicLinkFrom(cfg, Run(cfg, before + [Dial(true, at)]), steps, rtt)
    requires |steps| >= RecoveryTicks(cfg, Observed(cfg, Run(cfg, before).log), rtt)
    ensures var s := Run(cfg, before + [Dial(true, at)]);
            RunFrom(cfg, s, steps).rttCount > s.rttCount
            <==> rtt <= (TimeoutCap(s.est.srtt) / cfg.interval + 1) * cfg.interval
  {
    FreshSession(cfg, before, at);
    PeriodicFrom(cfg, before + [Dial(true, at)], steps, rtt);
    PeriodicReach(cfg, Run(cfg, before + [Dial(true, at)]).est.srtt);
  }

  lemma PeriodicReach(cfg: Config, srtt: real)
    requires ValidConfig(cfg)
    ensures CapReaches(srtt, cfg.interval) == (TimeoutCap(srtt) / cfg.interval + 1) * cfg.interval
  {
    CapIsPositive(srtt);
    ReachOfIntervals(TimeoutCap(srtt), cfg.interval);
  }

  lemma PeriodicIsSteadyAndSlow(cfg: Config, s: State, steps: seq<Step>, rtt: int)
    requires ValidConfig(cfg) && PeriodicLinkFrom(cfg, s, steps, rtt)
    ensures SteadyLinkFrom(cfg, s, steps, rtt, cfg.interval)
    ensures SlowLinkFrom(cfg, s, steps, rtt, cfg.interval, cfg.interval)
  {
    forall i | 0 <= i < |steps|
      ensures SteadyAt(cfg, s, steps, i, rtt, cfg.interval) && SlowAt(cfg, s, steps, i, rtt, cfg.interval, cfg.interval)
    {
      assert PeriodicAt(cfg, s, steps, i, rtt);
    }
  }
}
