/** What a re-dial does to the probes in flight and to the jitter estimate: the documentation says that it
    waits until nothing is in flight, the code flushes what is. */
module Redial {
  import opened Units
  import opened Wire
  import opened ProbeLoop
  import opened Conservation
  import opened Timing
  import opened Resolution
  import opened Jitter

  // ----- When a re-dial abandons a probe -----

  ghost predicate Settled(cfg: Config, s: State, t: TickInput, n: nat)
    requires n in s.pending
  {
    Answered(s, n, t.drained) || t.now - s.pending[n] > Timeout(cfg, s.est)
  }

  lemma FlushesOnlyPending(cfg: Config, s: State, t: TickInput)
    requires s.mode.Probing?
    ensures FlushedIn(s.log) <= FlushedIn(Next(cfg, s, Tick(t)).log) <= FlushedIn(s.log) + s.pending.Keys
  {
    SweepFlushesNothing(cfg, s, t);
    TickFinishes(cfg, s, t);
  }

  lemma SweepFlushesNothing(cfg: Config, s: State, t: TickInput)
    ensures var swept := DrainAndSweep(cfg, s, t);
            FlushedIn(swept.log) == FlushedIn(s.log) && swept.pending.Keys <= s.pending.Keys
  {
    DrainShrinks(cfg, s, t.drained);
    DrainFlushesNothing(cfg, s, t.drained);
  }

  /** A re-dial counts an in-flight probe as timed out unless the queue answers it or it is overdue at
      that very tick: the re-dial abandons nothing exactly when every pending probe is one or the other. */
  lemma RedialAbandonsNothingIff(cfg: Config, steps: seq<Step>, t: TickInput)
    requires Run(cfg, steps).mode.Probing? && Reconnects(cfg, Run(cfg, steps).mode.started, t)
    ensures var s := Run(cfg, steps);
            FlushedIn(Next(cfg, s, Tick(t)).log) == FlushedIn(s.log)
            <==> forall n :: n in s.pending ==> Settled(cfg, s, t, n)
  {
    var s := Run(cfg, steps);
    var next := Next(cfg, s, Tick(t));
    ExactlyOnce(cfg, steps);
    FlushesOnlyPending(cfg, s, t);
    forall n | n in s.pending
      ensures n !in FlushedIn(s.log) && (n in FlushedIn(next.log) <==> !Settled(cfg, s, t, n))
    {
      assert Fates(s, n) <= 1;
      TickResolution(cfg, steps, t, n);
    }
  }

  lemma NothingSurvivesShortTimeout(cfg: Config, s: State, t: TickInput)
    requires ValidConfig(cfg) && s.mode.Probing? && Timely(cfg, s) && LegalTick(cfg, s, t)
    requires Timeout(cfg, s.est) < cfg.interval
    ensures DrainAndSweep(cfg, s, t).pending.Keys == {}
  {
    TimeoutIsPositive(cfg, s.est);
    SmallQuotient(Timeout(cfg, s.est), cfg.interval);
    SweepBoundsInFlight(cfg, s, t);
  }

  lemma SmallQuotient(timeout: int, interval: int)
    requires 0 <= timeout < interval
    ensures timeout / interval == 0
  {
  }

  /** A guard on the configuration: on a run that keeps to the timer, a re-dial abandons nothing as long
      as the timeout in force is shorter than the interval. */
  lemma ShortTimeoutAbandonsNothing(cfg: Config, steps: seq<Step>, t: TickInput)
    requires ValidConfig(cfg) && Legal(cfg, steps)
    requires Run(cfg, steps).mode.Probing? && LegalTick(cfg, Run(cfg, steps), t)
    requires Reconnects(cfg, Run(cfg, steps).mode.started, t) && Timeout(cfg, Run(cfg, steps).est) < cfg.interval
    ensures FlushedIn(Next(cfg, Run(cfg, steps), Tick(t)).log) == FlushedIn(Run(cfg, steps).log)
  {
    var s := Run(cfg, steps);
    RunIsTimely(cfg, steps);
    NothingSurvivesShortTimeout(cfg, s, t);
    SweepFlushesNothing(cfg, s, t);
    TickFinishes(cfg, s, t);
  }

  /** A session whose first tick writes a probe has that probe, and only that, in flight. */
  lemma FirstTickOfSession(cfg: Config, s: State, at: int, t: TickInput)
    requires s.mode.Dialing? && !Reconnects(cfg, at, t) && t.write.Ok?
    ensures var up := Next(cfg, Next(cfg, s, Dial(true, at)), Tick(t));
            && up.pending == map[s.seqNo + 1 := t.now] && up.mode == Probing(at)
            && LastTick(up.log) == t.now && Clock(up.log) == t.check && up.seqNo == s.seqNo + 1
            && RttsIn(up.log) == RttsIn(s.log)
            && SamplesIn(up.log) == SamplesIn(s.log) && up.prevSeq == s.prevSeq && up.havePrev == s.havePrev
            && up.est == s.est
  {
    var dialed := Next(cfg, s, Dial(true, at));
    DrainOfNothing(cfg, dialed, t.drained);
    assert Overdue(map[], t.now, Timeout(cfg, s.est)) == {};
    var swept := DrainAndSweep(cfg, dialed, t);
    assert SamplesIn(swept.log) == SamplesIn(dialed.log) == SamplesIn(s.log);
    assert RttsIn(swept.log) == RttsIn(dialed.log) == RttsIn(s.log);
    assert Next(cfg, dialed, Tick(t)) == Register(swept, t.now);
  }

  // ----- When no run can abandon a probe -----

  /** The run re-dials at its next tick and abandons a probe. */
  ghost predicate Abandons(cfg: Config, steps: seq<Step>, t: TickInput) {
    && Legal(cfg, steps) && Run(cfg, steps).mode.Probing? && LegalTick(cfg, Run(cfg, steps), t)
    && Reconnects(cfg, Run(cfg, steps).mode.started, t)
    && FlushedIn(Next(cfg, Run(cfg, steps), Tick(t)).log) != FlushedIn(Run(cfg, steps).log)
  }

  /** Some run that keeps to the timer re-dials over a probe in flight exactly when a session outlasts its
      first tick and the timeout is at least the interval, or adaptive, so that it can come to be. */
  lemma SomeRunAbandonsIff(cfg: Config)
    requires ValidConfig(cfg)
    ensures (exists steps, t :: Abandons(cfg, steps, t))
            <==> cfg.interval < cfg.reconnectAfter && (cfg.adaptive || cfg.baseTimeout >= cfg.interval)
  {
    if cfg.interval < cfg.reconnectAfter {
      if cfg.adaptive {
        MeasuredSession(cfg);
        SessionAbandons(cfg, MeasuringSteps(cfg));
      } else if cfg.baseTimeout >= cfg.interval {
        SessionAbandons(cfg, []);
      }
    }
    forall steps, t | Abandons(cfg, steps, t)
      ensures cfg.interval < cfg.reconnectAfter && (cfg.adaptive || cfg.baseTimeout >= cfg.interval)
    {
      if !cfg.adaptive && cfg.baseTimeout < cfg.interval { ShortTimeoutAbandonsNothing(cfg, steps, t); }
      if cfg.reconnectAfter <= cfg.interval {
        NeverSends(cfg, steps);
        FlushesOnlyPending(cfg, Run(cfg, steps), t);
      }
    }
  }

  /** How long after the dial a session sends its first probe, so that the tick an interval later re-dials. */
  function Delay(cfg: Config): int {
    if cfg.interval <= cfg.reconnectAfter - cfg.interval then cfg.reconnectAfter - cfg.interval else cfg.interval
  }

  function QuietTick(now: int): TickInput {
    TickInput([], now, now, Ok)
  }

  /** A dial, and a tick that sends a probe. */
  function OpeningSteps(cfg: Config, at: int): seq<Step> {
    [Dial(true, at)] + [Tick(QuietTick(at + Delay(cfg)))]
  }

  /** What the opening steps lead to. */
  ghost predicate Opened(cfg: Config, s: State, up: State, at: int) {
    && up.mode == Probing(at) && up.pending == map[s.seqNo + 1 := at + Delay(cfg)]
    && Clock(up.log) == at + Delay(cfg) && up.est == s.est
  }

  lemma OpeningOpens(cfg: Config, s: State, at: int)
    requires ValidConfig(cfg) && cfg.interval < cfg.reconnectAfter && s.mode.Dialing? && at >= Clock(s.log)
    ensures LegalStep(cfg, s, Dial(true, at))
    ensures LegalStep(cfg, Next(cfg, s, Dial(true, at)), Tick(QuietTick(at + Delay(cfg))))
    ensures Opened(cfg, s, Next(cfg, Next(cfg, s, Dial(true, at)), Tick(QuietTick(at + Delay(cfg)))), at)
  {
    assert !Reconnects(cfg, at, QuietTick(at + Delay(cfg)));
    FirstTickOfSession(cfg, s, at, QuietTick(at + Delay(cfg)));
  }

  lemma SessionOpens(cfg: Config, steps: seq<Step>, at: int)
    requires ValidConfig(cfg) && cfg.interval < cfg.reconnectAfter && Legal(cfg, steps)
    requires Run(cfg, steps).mode.Dialing? && at >= Clock(Run(cfg, steps).log)
    ensures Legal(cfg, steps + OpeningSteps(cfg, at))
    ensures Opened(cfg, Run(cfg, steps), Run(cfg, steps + OpeningSteps(cfg, at)), at)
  {
    OpeningOpens(cfg, Run(cfg, steps), at);
    TwoLegalStepsMore(cfg, steps, Dial(true, at), Tick(QuietTick(at + Delay(cfg))));
  }

  /** The tick an interval later, at which the session has ended its term, abandons the probe. */
  lemma SessionAbandons(cfg: Config, steps: seq<Step>)
    requires ValidConfig(cfg) && cfg.interval < cfg.reconnectAfter && Legal(cfg, steps)
    requires Run(cfg, steps).mode.Dialing? && Timeout(cfg, Run(cfg, steps).est) >= cfg.interval
    ensures exists more, t :: Abandons(cfg, more, t)
  {
    var at := Clock(Run(cfg, steps).log);
    SessionOpens(cfg, steps, at);
    OpenedAbandons(cfg, Run(cfg, steps), steps + OpeningSteps(cfg, at), at);
  }

  lemma OpenedAbandons(cfg: Config, s: State, sent: seq<Step>, at: int)
    requires ValidConfig(cfg) && Legal(cfg, sent) && Opened(cfg, s, Run(cfg, sent), at)
    requires Timeout(cfg, s.est) >= cfg.interval
    ensures Abandons(cfg, sent, QuietTick(at + Delay(cfg) + cfg.interval))
  {
    LastTickIsLegal(cfg, Run(cfg, sent), at);
    AbandonsOne(cfg, sent, QuietTick(at + Delay(cfg) + cfg.interval), s.seqNo + 1);
  }

  lemma LastTickIsLegal(cfg: Config, s: State, at: int)
    requires ValidConfig(cfg) && s.mode == Probing(at) && Clock(s.log) == at + Delay(cfg)
    ensures LegalTick(cfg, s, QuietTick(at + Delay(cfg) + cfg.interval))
    ensures Reconnects(cfg, at, QuietTick(at + Delay(cfg) + cfg.interval))
  {
  }

  lemma AbandonsOne(cfg: Config, steps: seq<Step>, t: TickInput, n: nat)
    requires Legal(cfg, steps) && Run(cfg, steps).mode.Probing? && LegalTick(cfg, Run(cfg, steps), t)
    requires Reconnects(cfg, Run(cfg, steps).mode.started, t) && t.drained == []
    requires n in Run(cfg, steps).pending && t.now - Run(cfg, steps).pending[n] <= Timeout(cfg, Run(cfg, steps).est)
    ensures Abandons(cfg, steps, t)
  {
    SweepSpares(cfg, Run(cfg, steps), t, n);
    TickFinishes(cfg, Run(cfg, steps), t);
    ExactlyOnce(cfg, steps);
    assert Fates(Run(cfg, steps), n) <= 1;
  }

  /** A session that measures an RTT of one interval and re-dials with nothing in flight. */
  function MeasuringSteps(cfg: Config): seq<Step> {
    OpeningSteps(cfg, 0) + [Tick(EchoAndRedial(cfg))]
  }

  function EchoAndRedial(cfg: Config): TickInput {
    var now := Delay(cfg) + cfg.interval;
    TickInput([Response(1, ToWord(Delay(cfg)), now)], now, now, Ok)
  }

  lemma MeasuredSession(cfg: Config)
    requires ValidConfig(cfg) && cfg.interval < cfg.reconnectAfter
    ensures Legal(cfg, MeasuringSteps(cfg))
    ensures var s := Run(cfg, MeasuringSteps(cfg));
            s.mode.Dialing? && s.linkUp && (cfg.adaptive ==> Timeout(cfg, s.est) >= cfg.interval)
  {
    var opening := OpeningSteps(cfg, 0);
    SessionOpens(cfg, [], 0);
    assert [] + opening == opening;
    OneStepMore(cfg, opening, Tick(EchoAndRedial(cfg)));
    OneLegalStepMore(cfg, opening, Tick(EchoAndRedial(cfg)));
    EchoBeforeRedial(cfg, Run(cfg, opening), EchoAndRedial(cfg), Delay(cfg));
    if cfg.adaptive { FloorCoversTwofold(Run(cfg, MeasuringSteps(cfg)).est, cfg.interval); }
  }

  lemma EchoBeforeRedial(cfg: Config, s: State, t: TickInput, sentAt: int)
    requires s.mode.Probing? && s.pending == map[1 := sentAt] && s.est.srtt == 0.0
    requires t.drained == [Response(1, ToWord(sentAt), t.now)] && Reconnects(cfg, s.mode.started, t)
    ensures var next := Next(cfg, s, Tick(t));
            && next.mode.Dialing? && next.linkUp
            && (cfg.adaptive ==> next.est.srtt == Seconds(t.now - sentAt))
  {
    var r := t.drained[0];
    assert Drain(cfg, s, t.drained) == Receive(cfg, s, r) by { assert t.drained[1..] == []; }
    assert Overdue(map[], t.now, Timeout(cfg, s.est)) == {};
    assert Next(cfg, s, Tick(t)) == FlushPending(DrainAndSweep(cfg, s, t));
  }

  lemma SweepSpares(cfg: Config, s: State, t: TickInput, n: nat)
    requires t.drained == [] && n in s.pending && t.now - s.pending[n] <= Timeout(cfg, s.est)
    ensures n in DrainAndSweep(cfg, s, t).pending
  {
  }

  /** When the reconnect interval is no longer than the probe interval, every first tick re-dials and
      nothing is ever written. */
  lemma {:induction false} NeverSends(cfg: Config, steps: seq<Step>)
    requires ValidConfig(cfg) && cfg.reconnectAfter <= cfg.interval && Legal(cfg, steps)
    ensures var s := Run(cfg, steps); s.pending == map[] && (s.mode.Probing? ==> Clock(s.log) >= s.mode.started)
  {
    if steps == [] {
    } else {
      var n := |steps| - 1;
      NeverSends(cfg, steps[..n]);
      var s := Run(cfg, steps[..n]);
      if steps[n].Tick? && s.mode.Probing? { TickFinishes(cfg, s, steps[n].input); }
    }
  }

  // ----- The jitter estimate across a re-dial -----

  lemma OneEcho(cfg: Config, s: State, r: Response)
    requires Matches(s.pending, r) && s.havePrev
    ensures var echoed := Receive(cfg, s, r);
            && SamplesIn(echoed.log) == SamplesIn(s.log) + [Sample(r.seqNo, Seconds(r.recv - s.pending[r.seqNo]))]
            && (r.seqNo != s.prevSeq + 1 ==> echoed.jitter == 0.0)
  {
  }

  /** The echo of the next session's first probe, received right after the tick that sent it, extends the run
      of samples the jitter is computed from exactly when the latest sample is of the last probe sent;
      otherwise the estimate starts over. */
  lemma RedialKeepsJitterIff(cfg: Config, steps: seq<Step>, at: int, t: TickInput, recv: int)
    requires Run(cfg, steps).mode.Dialing? && Run(cfg, steps).havePrev
    requires Run(cfg, steps).seqNo + 1 < 0x1_0000_0000_0000_0000
    requires !Reconnects(cfg, at, t) && t.write.Ok?
    ensures var s := Run(cfg, steps);
            var n := s.seqNo + 1;
            var up := Next(cfg, Next(cfg, s, Dial(true, at)), Tick(t));
            var r := Response(n, ToWord(t.now), recv);
            var echoed := Receive(cfg, up, r);
            && Matches(up.pending, r)
            && (CurrentRun(SamplesIn(echoed.log)) == CurrentRun(SamplesIn(s.log)) + [Sample(n, Seconds(recv - t.now))]
                <==> s.prevSeq == s.seqNo)
            && (s.prevSeq != s.seqNo ==> CurrentRun(SamplesIn(echoed.log)) == [Sample(n, Seconds(recv - t.now))]
                                         && echoed.jitter == 0.0)
  {
    var s := Run(cfg, steps);
    JitterIsHistory(cfg, steps);
    FirstTickOfSession(cfg, s, at, t);
    OneMoreRun(SamplesIn(s.log), Sample(s.seqNo + 1, Seconds(recv - t.now)));
    OneEcho(cfg, Next(cfg, Next(cfg, s, Dial(true, at)), Tick(t)), Response(s.seqNo + 1, ToWord(t.now), recv));
  }

  /** Whichever echo of the new session comes first. */
  ghost predicate SentSince(s: State, u: State) {
    && SamplesIn(s.log) <= SamplesIn(u.log) && u.seqNo >= s.seqNo
    && forall n :: n in u.pending ==> n > s.seqNo
  }

  lemma {:induction false} DrainKeepsSince(cfg: Config, s: State, u: State, responses: seq<Response>)
    requires SentSince(s, u)
    ensures SentSince(s, Drain(cfg, u, responses))
    decreases |responses|
  {
    if responses == [] {
    } else {
      DrainKeepsSince(cfg, s, Receive(cfg, u, responses[0]), responses[1..]);
    }
  }

  lemma TickEndKeepsSince(s: State, u: State, now: int, result: WriteResult)
    requires SentSince(s, u)
    ensures SentSince(s, FlushPending(u)) && SentSince(s, Write(u, now, result))
  {
  }

  lemma StepKeepsSince(cfg: Config, s: State, u: State, step: Step)
    requires SentSince(s, u)
    ensures SentSince(s, Next(cfg, u, step))
  {
    if step.Tick? && u.mode.Probing? {
      var t := step.input;
      DrainKeepsSince(cfg, s, u, t.drained);
      var swept := DrainAndSweep(cfg, u, t);
      assert SentSince(s, swept);
      TickEndKeepsSince(s, swept, t.now, t.write);
    }
  }

  lemma {:induction false} RunKeepsSince(cfg: Config, s: State, more: seq<Step>)
    requires s.pending == map[]
    ensures SentSince(s, RunFrom(cfg, s, more))
  {
    if more == [] {
    } else {
      var n := |more| - 1;
      RunKeepsSince(cfg, s, more[..n]);
      StepKeepsSince(cfg, s, RunFrom(cfg, s, more[..n]), more[n]);
    }
  }

  /** After a re-dial, however long and through whatever losses and further re-dials, the first probe that is
      matched extends the run of samples the jitter is computed from exactly when the latest sample before
      was of the last probe then sent and this one is of the next; otherwise the estimate starts over. */
  lemma FirstEchoExtendsIff(cfg: Config, steps: seq<Step>, more: seq<Step>, r: Response)
    requires Run(cfg, steps).mode.Dialing? && Run(cfg, steps).havePrev
    requires var u := Run(cfg, steps + more);
             SamplesIn(u.log) == SamplesIn(Run(cfg, steps).log) && Matches(u.pending, r)
    ensures var s, u := Run(cfg, steps), Run(cfg, steps + more);
            var x := Sample(r.seqNo, Seconds(r.recv - u.pending[r.seqNo]));
            var echoed := Receive(cfg, u, r);
            && (CurrentRun(SamplesIn(echoed.log)) == CurrentRun(SamplesIn(s.log)) + [x]
                <==> s.prevSeq == s.seqNo && r.seqNo == s.seqNo + 1)
            && (CurrentRun(SamplesIn(echoed.log)) == CurrentRun(SamplesIn(s.log)) + [x]
                || (CurrentRun(SamplesIn(echoed.log)) == [x] && echoed.jitter == 0.0))
  {
    var s, u := Run(cfg, steps), Run(cfg, steps + more);
    SentAfter(cfg, steps, more, r.seqNo);
    OneEcho(cfg, u, r);
    OneMoreRun(SamplesIn(s.log), Sample(r.seqNo, Seconds(r.recv - u.pending[r.seqNo])));
  }

  /** What is pending in a later session is numbered above the latest sample, which is still the latest. */
  lemma SentAfter(cfg: Config, steps: seq<Step>, more: seq<Step>, n: nat)
    requires Run(cfg, steps).mode.Dialing? && Run(cfg, steps).havePrev && n in Run(cfg, steps + more).pending
    requires SamplesIn(Run(cfg, steps + more).log) == SamplesIn(Run(cfg, steps).log)
    ensures var s, u := Run(cfg, steps), Run(cfg, steps + more);
            var samples := SamplesIn(s.log);
            && n > s.seqNo >= s.prevSeq && u.havePrev && u.prevSeq == s.prevSeq
            && samples != [] && samples[|samples| - 1].seqNo == s.prevSeq
  {
    ExactlyOnce(cfg, steps);
    RunOn(cfg, steps, more);
    RunKeepsSince(cfg, Run(cfg, steps), more);
    JitterIsHistory(cfg, steps);
    JitterIsHistory(cfg, steps + more);
    LastSampleIsSent(cfg, steps);
  }

  lemma LastSampleIsSent(cfg: Config, steps: seq<Step>)
    requires Run(cfg, steps).havePrev
    ensures Run(cfg, steps).prevSeq <= Run(cfg, steps).seqNo
  {
    var s := Run(cfg, steps);
    ExactlyOnce(cfg, steps);
    JitterIsHistory(cfg, steps);
    SamplesAreMatched(s.log);
    var samples := SamplesIn(s.log);
    assert samples[|samples| - 1] in samples;
    assert Fates(s, s.prevSeq) >= 1;
  }
}
