/** The estimator inside the loop: what its guarantees over runs of measurements and timeouts mean for
    the timeout in force and for the probes in flight, over runs of the target. */
module AdaptiveLoop {
  import opened Units
  import opened Wire
  import opened Estimator
  import opened EstimatorRuns
  import opened ProbeLoop
  import opened Conservation
  import opened LinkState
  import opened Timing
  import opened Resolution
  import Redial

  /** Every RTT measured so far is non-negative and at most hi seconds. */
  ghost predicate RttsUpTo(cfg: Config, h: History, hi: real) {
    SamplesWithin(Observed(cfg, h), 0.0, hi)
  }

  ghost predicate CausalRtts(cfg: Config, h: History) {
    Causal(Observed(cfg, h))
  }

  /** In every reachable state the stored RTO is the last measured one, or the initial one, doubled once
      for every tick with a timeout since the last echo but the first, and capped at 3 s; thirteen such
      ticks after an echo put the timeout in force at max(3 s, 2*SRTT). */
  lemma RtoFollowsTimeoutTicks(cfg: Config, steps: seq<Step>)
    requires ValidConfig(cfg) && CausalRtts(cfg, Run(cfg, steps).log)
    ensures var s := Run(cfg, steps);
            var ops := Observed(cfg, s.log);
            && s.est.rto == DoubledRto(BaseRto(cfg.baseTimeout, ops), Streak(ops))
            && (HasSample(ops) && Streak(ops) >= 13 ==> ClampedRto(s.est) == Max(3.0, 2.0 * s.est.srtt))
  {
    var ops := Observed(cfg, Run(cfg, steps).log);
    StateIsHistory(cfg, steps);
    BackoffClosedForm(cfg.baseTimeout, ops);
    if HasSample(ops) && Streak(ops) >= 13 { Saturation(cfg.baseTimeout, ops); }
  }

  /** The timeout the next tick will use, in every reachable state and in every case: with a fixed timeout
      the configured one; in adaptive mode the last measured RTO, or the initial one, doubled once for every
      tick with a timeout since the last echo but the first, between the floor and the cap. */
  lemma TimeoutOfNextTick(cfg: Config, steps: seq<Step>)
    requires ValidConfig(cfg) && CausalRtts(cfg, Run(cfg, steps).log)
    ensures var s := Run(cfg, steps);
            var ops := Observed(cfg, s.log);
            && (!cfg.adaptive ==> Timeout(cfg, s.est) == cfg.baseTimeout)
            && (cfg.adaptive ==>
                  InForce(Timeout(cfg, s.est), Doublings(BaseRto(cfg.baseTimeout, ops), Streak(ops)), s.est.srtt))
  {
    var s := Run(cfg, steps);
    var ops := Observed(cfg, s.log);
    RtoFollowsTimeoutTicks(cfg, steps);
    TimeoutInForce(s.est);
    if Streak(ops) >= 2 {
      CapIsAbsorbed(CurrentRto(s.est), Doublings(BaseRto(cfg.baseTimeout, ops), Streak(ops)), s.est.srtt);
    }
  }

  /** Capping the stored RTO at 3 s before the clamp changes nothing. */
  lemma CapIsAbsorbed(timeout: int, r: real, srtt: real)
    requires InForce(timeout, Min(r, 3.0), srtt)
    ensures InForce(timeout, r, srtt)
  {
    assert Nanoseconds(3.0) == 3_000_000_000;
  }

  // ----- The timeouts of all past ticks -----

  lemma {:induction false} DrainObserves(cfg: Config, s: State, responses: seq<Response>)
    ensures Observed(cfg, s.log) <= Observed(cfg, Drain(cfg, s, responses).log)
    decreases |responses|
  {
    if responses == [] {
    } else {
      DrainObserves(cfg, Receive(cfg, s, responses[0]), responses[1..]);
    }
  }

  lemma SweepObserves(cfg: Config, s: State, now: int, check: int, timeout: int)
    ensures Observed(cfg, s.log) <= Observed(cfg, Sweep(cfg, s, now, check, timeout).log)
  {
  }

  lemma TickEndObservesNothing(cfg: Config, s: State, now: int, result: WriteResult)
    ensures Observed(cfg, FlushPending(s).log) == Observed(cfg, s.log) == Observed(cfg, Write(s, now, result).log)
    ensures LastTimeout(FlushPending(s).log) == LastTimeout(s.log) == LastTimeout(Write(s, now, result).log)
    ensures FlushPending(s).rttCount == s.rttCount == Write(s, now, result).rttCount
  {
  }

  lemma ObservationsOnlyGrow(cfg: Config, s: State, step: Step)
    ensures Observed(cfg, s.log) <= Observed(cfg, Next(cfg, s, step).log)
  {
    if step.Tick? && s.mode.Probing? {
      var t := step.input;
      DrainObserves(cfg, s, t.drained);
      SweepObserves(cfg, Drain(cfg, s, t.drained), t.now, t.check, Timeout(cfg, s.est));
      TickEndObservesNothing(cfg, DrainAndSweep(cfg, s, t), t.now, t.write);
    }
  }

  // ----- One update per echo, one backoff per tick -----

  function Updates(ops: seq<Op>): nat {
    if ops == [] then 0 else Updates(ops[..|ops| - 1]) + One(ops[|ops| - 1].Measured?)
  }

  function Backoffs(ops: seq<Op>): nat {
    if ops == [] then 0 else Backoffs(ops[..|ops| - 1]) + One(ops[|ops| - 1].Expired?)
  }

  lemma OneMoreCounted(ops: seq<Op>, op: Op)
    ensures Updates(ops + [op]) == Updates(ops) + One(op.Measured?)
    ensures Backoffs(ops + [op]) == Backoffs(ops) + One(op.Expired?)
  {
    assert (ops + [op])[..|ops|] == ops;
  }

  lemma {:induction false} DrainUpdates(cfg: Config, s: State, responses: seq<Response>)
    requires cfg.adaptive
    ensures var t := Drain(cfg, s, responses);
            && Updates(Observed(cfg, t.log)) - Updates(Observed(cfg, s.log)) == t.rttCount - s.rttCount
            && Backoffs(Observed(cfg, t.log)) == Backoffs(Observed(cfg, s.log))
    decreases |responses|
  {
    if responses == [] {
    } else {
      var r := responses[0];
      if Matches(s.pending, r) {
        OneMoreCounted(Observed(cfg, s.log), Measured(Seconds(r.recv - s.pending[r.seqNo])));
      }
      DrainUpdates(cfg, Receive(cfg, s, r), responses[1..]);
    }
  }

  lemma SweepBacksOff(cfg: Config, s: State, now: int, check: int, timeout: int)
    requires cfg.adaptive
    ensures var t := Sweep(cfg, s, now, check, timeout);
            && Updates(Observed(cfg, t.log)) == Updates(Observed(cfg, s.log)) && t.rttCount == s.rttCount
            && Backoffs(Observed(cfg, t.log)) == Backoffs(Observed(cfg, s.log)) + One(Overdue(s.pending, now, timeout) != {})
  {
    OneMoreCounted(Observed(cfg, s.log), Expired);
  }

  /** Every step feeds the estimator one measurement per echo counted, and one timeout if its sweep loses
      anything, however many probes it loses. */
  lemma StepFeedsEstimator(cfg: Config, s: State, step: Step)
    requires cfg.adaptive
    ensures var next := Next(cfg, s, step);
            && Updates(Observed(cfg, next.log)) - Updates(Observed(cfg, s.log)) == next.rttCount - s.rttCount
            && Backoffs(Observed(cfg, next.log)) - Backoffs(Observed(cfg, s.log))
               == if step.Tick? && s.mode.Probing?
                  then One(Overdue(Drain(cfg, s, step.input.drained).pending, step.input.now, Timeout(cfg, s.est)) != {})
                  else 0
  {
    if step.Tick? && s.mode.Probing? {
      var t := step.input;
      DrainUpdates(cfg, s, t.drained);
      SweepBacksOff(cfg, Drain(cfg, s, t.drained), t.now, t.check, Timeout(cfg, s.est));
      TickEndObservesNothing(cfg, DrainAndSweep(cfg, s, t), t.now, t.write);
    }
  }

  lemma NextTimeout(cfg: Config, s: State, step: Step)
    ensures var next := Next(cfg, s, step);
            LastTimeout(next.log) in {0, LastTimeout(s.log), Timeout(cfg, s.est)}
  {
    if step.Tick? && s.mode.Probing? {
      TickEndObservesNothing(cfg, DrainAndSweep(cfg, s, step.input), step.input.now, step.input.write);
    }
  }

  lemma {:induction false} TimeoutsCapped(cfg: Config, steps: seq<Step>, hi: real)
    requires cfg.adaptive && hi >= 0.0 && RttsUpTo(cfg, Run(cfg, steps).log, hi)
    ensures LastTimeout(Run(cfg, steps).log) <= TimeoutCap(hi)
  {
    if steps == [] {
    } else {
      var n := |steps| - 1;
      var s, next := Run(cfg, steps[..n]), Run(cfg, steps);
      ObservationsOnlyGrow(cfg, s, steps[n]);
      PrefixWithin(Observed(cfg, s.log), Observed(cfg, next.log), hi);
      TimeoutsCapped(cfg, steps[..n], hi);
      StateIsHistory(cfg, steps[..n]);
      CapOverRuns(cfg.baseTimeout, Observed(cfg, s.log), hi);
      NextTimeout(cfg, s, steps[n]);
    }
  }

  lemma PrefixWithin(few: seq<Op>, many: seq<Op>, hi: real)
    requires few <= many && SamplesWithin(many, 0.0, hi)
    ensures SamplesWithin(few, 0.0, hi)
  {
    forall i | 0 <= i < |few| && few[i].Measured? ensures 0.0 <= few[i].rtt <= hi { assert few[i] == many[i]; }
  }

  /** On a link whose RTTs never exceed hi the adaptive loop never has more than max(3 s, 2*hi) / interval
      + 1 probes in flight, through any losses, backoffs, re-dials and restarts. */
  lemma AdaptiveInFlightBound(cfg: Config, steps: seq<Step>, hi: real)
    requires ValidConfig(cfg) && cfg.adaptive && Legal(cfg, steps)
    requires hi >= 0.0 && RttsUpTo(cfg, Run(cfg, steps).log, hi)
    ensures Run(cfg, steps).inflight <= TimeoutCap(hi) / cfg.interval + 1
  {
    var s := Run(cfg, steps);
    TimeoutsCapped(cfg, steps, hi);
    ExactlyOnce(cfg, steps);
    if s.mode.Probing? {
      RunIsTimely(cfg, steps);
      DivisionGrows(LastTimeout(s.log), TimeoutCap(hi), cfg.interval);
    } else {
      DivisionGrows(0, TimeoutCap(hi), cfg.interval);
    }
  }

  /** With a fixed timeout the bound is baseTimeout / interval + 1. */
  lemma FixedInFlightBound(cfg: Config, steps: seq<Step>)
    requires ValidConfig(cfg) && !cfg.adaptive && Legal(cfg, steps)
    ensures Run(cfg, steps).inflight <= cfg.baseTimeout / cfg.interval + 1
  {
    var s := Run(cfg, steps);
    TimeoutsFixed(cfg, steps);
    ExactlyOnce(cfg, steps);
    DivisionGrows(0, cfg.baseTimeout, cfg.interval);
    if s.mode.Probing? {
      RunIsTimely(cfg, steps);
      DivisionGrows(LastTimeout(s.log), cfg.baseTimeout, cfg.interval);
    }
  }

  lemma {:induction false} TimeoutsFixed(cfg: Config, steps: seq<Step>)
    requires ValidConfig(cfg) && !cfg.adaptive
    ensures LastTimeout(Run(cfg, steps).log) in {0, cfg.baseTimeout}
  {
    if steps == [] {
    } else {
      var n := |steps| - 1;
      TimeoutsFixed(cfg, steps[..n]);
      NextTimeout(cfg, Run(cfg, steps[..n]), steps[n]);
    }
  }

  lemma DivisionGrows(small: int, large: int, interval: int)
    requires 0 <= small <= large && interval > 0
    ensures 0 <= small / interval <= large / interval
  {
    DivisionLeavesLess(small, interval);
    IntervalsAreMultiples(small / interval, interval);
    assert small == small / interval * interval + small % interval;
    WholeIntervals(small / interval, interval, large);
  }

  // ----- A prompt link after any run -----

  /** In any reachable state whose measurements so far lie in [lo, max(2*lo, 200 ms)], as do the RTTs to come,
      and whose echoes are queued by the time they are due, no probe is counted as lost from there on. */
  lemma PromptLinkLosesNothing(cfg: Config, steps: seq<Step>, more: seq<Step>, lo: int)
    requires cfg.adaptive && lo > 0
    requires var seen := Observed(cfg, Run(cfg, steps).log);
             HasSample(seen) && SamplesWithin(seen, Seconds(lo), Seconds(Headroom(lo)))
    requires Prompt(cfg, Run(cfg, steps), more, lo)
    ensures LostIn(RunFrom(cfg, Run(cfg, steps), more).log) == LostIn(Run(cfg, steps).log)
  {
    StateIsHistory(cfg, steps);
    Hull(cfg.baseTimeout, Observed(cfg, Run(cfg, steps).log), Seconds(lo), Seconds(Headroom(lo)));
    NoLossOnPromptLink(cfg, Run(cfg, steps), more, lo);
  }

  // ----- The headroom is exact -----

  function PromptConfig(lo: int): Config {
    Config(true, lo, lo, 6 * lo + Headroom(lo) + 2, Open)
  }

  /** The tick at which the echo of probe k, sent k intervals after the dial, is one interval old. */
  function EchoTickOf(lo: int, k: Word): TickInput {
    var now := Intervals(k + 1, lo);
    TickInput([Response(k, ToWord(Intervals(k, lo)), now)], now, now, Ok)
  }

  /** A session that measures k RTTs of exactly lo, one at each tick, and has just sent probe k + 1. */
  function PromptSteps(lo: int, k: nat): seq<Step>
    requires k < 0x1_0000_0000_0000_0000
  {
    if k == 0 then [Dial(true, 0)] + [Tick(TickInput([], lo, lo, Ok))] else PromptSteps(lo, k - 1) + [Tick(EchoTickOf(lo, k))]
  }

  ghost predicate PromptSoFar(s: State, lo: int, k: nat) {
    && s.mode == Probing(0) && s.seqNo == k + 1 && s.pending == map[k + 1 := Intervals(k + 1, lo)]
    && Clock(s.log) == Intervals(k + 1, lo) && s.est == Fold(lo, Repeat(Seconds(lo), k))
    && (forall i :: 0 <= i < |RttsIn(s.log)| ==> RttsIn(s.log)[i] == lo)
  }

  lemma NothingRepeated(rtt: real)
    ensures Repeat(rtt, 0) == []
  {
  }

  lemma FirstPromptState(cfg: Config, lo: int, first: TickInput)
    requires lo > 0 && cfg == PromptConfig(lo) && first == TickInput([], lo, lo, Ok)
    ensures var dialed := Next(cfg, InitialState(cfg), Dial(true, 0));
            && LegalStep(cfg, InitialState(cfg), Dial(true, 0)) && LegalStep(cfg, dialed, Tick(first))
            && PromptSoFar(Next(cfg, dialed, Tick(first)), lo, 0)
  {
    Redial.FirstTickOfSession(cfg, InitialState(cfg), 0, first);
    NothingRepeated(Seconds(lo));
    assert Intervals(1, lo) == Intervals(0, lo) + lo;
  }

  lemma FirstPromptTick(lo: int)
    requires lo > 0
    ensures Legal(PromptConfig(lo), PromptSteps(lo, 0))
    ensures PromptSoFar(Run(PromptConfig(lo), PromptSteps(lo, 0)), lo, 0)
  {
    var cfg, first := PromptConfig(lo), TickInput([], lo, lo, Ok);
    FirstPromptState(cfg, lo, first);
    TwoLegalStepsMore(cfg, [], Dial(true, 0), Tick(first));
    assert [] + ([Dial(true, 0)] + [Tick(first)]) == PromptSteps(lo, 0);
  }

  lemma OneMorePromptTick(lo: int, s: State, k: Word)
    requires lo > 0 && 1 <= k <= 4 && PromptSoFar(s, lo, k - 1)
    ensures LegalStep(PromptConfig(lo), s, Tick(EchoTickOf(lo, k)))
    ensures PromptSoFar(Next(PromptConfig(lo), s, Tick(EchoTickOf(lo, k))), lo, k)
  {
    var cfg, t := PromptConfig(lo), EchoTickOf(lo, k);
    MoreIntervals(k + 1, 5, lo);
    IntervalsAreMultiples(5, lo);
    EchoedTick(cfg, s, Intervals(k, lo), t.now, t);
    assert Repeat(Seconds(lo), k)[..k - 1] == Repeat(Seconds(lo), k - 1);
  }

  lemma {:induction false} PromptRun(lo: int, k: nat)
    requires lo > 0 && k <= 4
    ensures Legal(PromptConfig(lo), PromptSteps(lo, k)) && PromptSoFar(Run(PromptConfig(lo), PromptSteps(lo, k)), lo, k)
  {
    if k == 0 {
      FirstPromptTick(lo);
    } else {
      var cfg, earlier := PromptConfig(lo), PromptSteps(lo, k - 1);
      PromptRun(lo, k - 1);
      OneMorePromptTick(lo, Run(cfg, earlier), k);
      OneStepMore(cfg, earlier, Tick(EchoTickOf(lo, k)));
      OneLegalStepMore(cfg, earlier, Tick(EchoTickOf(lo, k)));
    }
  }

  /** For every lo, a run that keeps to the timer, in which every RTT measured is lo and the next is allowed
      one nanosecond more than max(2*lo, 200 ms), loses a probe. */
  lemma HeadroomIsExact(lo: int)
    requires lo > 0
    ensures var cfg, now := PromptConfig(lo), 5 * lo + Headroom(lo) + 1;
            var s, t := Run(cfg, PromptSteps(lo, 4)), TickInput([], now, now, Ok);
            && Legal(cfg, PromptSteps(lo, 4)) && s.mode.Probing? && LegalTick(cfg, s, t)
            && (forall i :: 0 <= i < |RttsIn(s.log)| ==> RttsIn(s.log)[i] == lo)
            && PromptTick(s, t, lo, Headroom(lo) + 1)
            && 5 in LostIn(Next(cfg, s, Tick(t)).log)
  {
    var cfg, now := PromptConfig(lo), 5 * lo + Headroom(lo) + 1;
    PromptRun(lo, 4);
    IntervalsAreMultiples(5, lo);
    TimeoutMeetsFloor(lo, lo, 4);
    LostWhenOverdue(cfg, Run(cfg, PromptSteps(lo, 4)), TickInput([], now, now, Ok), 5);
  }

  lemma LostWhenOverdue(cfg: Config, s: State, t: TickInput, n: nat)
    requires s.mode.Probing? && t.drained == [] && n in s.pending && t.now - s.pending[n] > Timeout(cfg, s.est)
    ensures n in LostIn(Next(cfg, s, Tick(t)).log)
  {
    var swept := DrainAndSweep(cfg, s, t);
    assert n in LostIn(swept.log);
    TickEndLosesNothing(swept, t.now, t.write);
  }
}
