/** Runs that the documentation rules out and the code allows. The exact conditions are proved elsewhere:
    WriteFailures.LinkInStreak, RaisedWithoutWriteIff and PersistentFailuresIff, Timing.RttAboveIff, and
    Redial.SomeRunAbandonsIff and FirstEchoExtendsIff. */
module Exceptions {
  import opened Units
  import opened Wire
  import opened Estimator
  import opened ProbeLoop
  import opened Timing
  import opened Resolution
  import Redial
  import opened WriteFailures

  const FIXED: Config := Config(false, SECOND, 10 * SECOND, 300 * SECOND, Open)
  const ADAPTIVE: Config := Config(true, SECOND, SECOND, 300 * SECOND, Open)

  function TickAt(seconds: int, drained: seq<Response>, result: WriteResult): Step {
    Tick(TickInput(drained, seconds * SECOND, seconds * SECOND, result))
  }

  /** The echo of probe 1, which both runs below send one second after the dial. */
  function EchoOfFirst(recv: int): Response {
    Response(1, ToWord(SECOND), recv)
  }

  /** link_up is 1 although the last four writes failed: the echo of an earlier probe came in after the
      third failure, when the loop had already reported the link down. */
  lemma LinkUpDespiteWriteFailures()
    ensures var steps := [Dial(true, 0), TickAt(1, [], Ok), TickAt(2, [], Failed), TickAt(3, [], Failed),
                          TickAt(4, [], Failed), TickAt(5, [EchoOfFirst(4 * SECOND + SECOND / 2)], Failed)];
            var down, up := RunFrom(FIXED, InitialState(FIXED), steps[..5]), Run(FIXED, steps);
            !down.linkUp && down.writeFails == 3 && up.linkUp && up.writeFails == 4
  {
    LateEchoRun([Dial(true, 0), TickAt(1, [], Ok), TickAt(2, [], Failed), TickAt(3, [], Failed),
                 TickAt(4, [], Failed), TickAt(5, [EchoOfFirst(4 * SECOND + SECOND / 2)], Failed)]);
  }

  lemma LateEchoRun(steps: seq<Step>)
    requires |steps| == 6 && steps[0] == Dial(true, 0) && steps[1] == TickAt(1, [], Ok)
    requires forall i :: 2 <= i < 5 ==> steps[i] == TickAt(i, [], Failed)
    requires steps[5] == TickAt(5, [EchoOfFirst(4 * SECOND + SECOND / 2)], Failed)
    ensures var down, up := Run(FIXED, steps[..5]), Run(FIXED, steps);
            !down.linkUp && down.writeFails == 3 && up.linkUp && up.writeFails == 4
  {
    QuietFailures(steps, 5);
    Unfold(FIXED, steps, 5);
    assert steps[..6] == steps;
    LateEcho(Run(FIXED, steps[..5]), steps[5]);
  }

  lemma {:induction false} QuietFailures(steps: seq<Step>, k: nat)
    requires 2 <= k <= 5 && k <= |steps| && steps[0] == Dial(true, 0) && steps[1] == TickAt(1, [], Ok)
    requires forall i :: 2 <= i < k ==> steps[i] == TickAt(i, [], Failed)
    ensures var s := Run(FIXED, steps[..k]);
            && s.mode == Probing(0) && s.pending == map[1 := SECOND] && s.misses == 0
            && !s.linkUp && s.writeFails == k - 2
  {
    if k == 2 {
      FirstProbe(FIXED, steps);
    } else {
      QuietFailures(steps, k - 1);
      QuietFailure(FIXED, steps, k - 1);
    }
  }

  lemma LateEcho(s: State, step: Step)
    requires s.mode == Probing(0) && s.pending == map[1 := SECOND] && s.writeFails == 3
    requires step == TickAt(5, [EchoOfFirst(4 * SECOND + SECOND / 2)], Failed)
    ensures Next(FIXED, s, step).linkUp && Next(FIXED, s, step).writeFails == 4
  {
    var echo := step.input.drained[0];
    assert Drain(FIXED, s, [echo]) == Receive(FIXED, s, echo) by { assert [echo][1..] == []; }
    assert Receive(FIXED, s, echo).pending == map[];
    assert Overdue(map[], step.input.now, FIXED.baseTimeout) == {};
  }

  lemma Unfold(cfg: Config, steps: seq<Step>, i: nat)
    requires i < |steps|
    ensures Run(cfg, steps[..i + 1]) == Next(cfg, Run(cfg, steps[..i]), steps[i])
  {
    assert steps[..i + 1][..i] == steps[..i];
  }

  lemma LegalUnfold(cfg: Config, steps: seq<Step>, i: nat)
    requires i < |steps|
    ensures Run(cfg, steps[..i + 1]) == Next(cfg, Run(cfg, steps[..i]), steps[i])
    ensures Legal(cfg, steps[..i]) && LegalStep(cfg, Run(cfg, steps[..i]), steps[i]) ==> Legal(cfg, steps[..i + 1])
  {
    assert steps[..i + 1][..i] == steps[..i];
  }

  lemma FirstProbe(cfg: Config, steps: seq<Step>)
    requires |steps| >= 2 && steps[0] == Dial(true, 0) && steps[1] == TickAt(1, [], Ok)
    requires cfg.reconnectAfter > SECOND
    ensures var s := Run(cfg, steps[..2]);
            && s.mode == Probing(0) && s.pending == map[1 := SECOND] && s.writeFails == 0 && !s.linkUp && s.misses == 0
            && s.est == Initial(cfg.baseTimeout) && s.seqNo == 1 && s.rttCount == 0 && s.timedOut == 0
  {
    assert steps[..0] == [];
    Unfold(cfg, steps, 0);
    Unfold(cfg, steps, 1);
  }

  lemma QuietFailure(cfg: Config, steps: seq<Step>, i: nat)
    requires 2 <= i < |steps| && i < 10 && steps[i] == TickAt(i, [], Failed)
    requires var s := Run(cfg, steps[..i]); s.mode == Probing(0) && s.pending == map[1 := SECOND]
    requires !cfg.adaptive && cfg.reconnectAfter > 10 * SECOND && cfg.baseTimeout == 10 * SECOND
    ensures var s, t := Run(cfg, steps[..i]), Run(cfg, steps[..i + 1]);
            && t.mode == s.mode && t.pending == s.pending && t.misses == s.misses && t.writeFails == s.writeFails + 1
            && t.linkUp == (s.linkUp && s.misses < 3 && s.writeFails + 1 != 3)
  {
    Unfold(cfg, steps, i);
    var s := Run(cfg, steps[..i]);
    assert Overdue(s.pending, i * SECOND, cfg.baseTimeout) == {};
  }

  lemma FirstProbeIsLegal(cfg: Config, steps: seq<Step>)
    requires |steps| == 3 && steps[0] == Dial(true, 0) && steps[1] == TickAt(1, [], Ok)
    requires cfg.reconnectAfter > SECOND && cfg.interval == SECOND
    ensures Legal(cfg, steps[..2]) && Clock(Run(cfg, steps[..2]).log) == SECOND
  {
    FirstProbe(cfg, steps);
    Unfold(cfg, steps, 0);
    Unfold(cfg, steps, 1);
    assert steps[..2][..1] == steps[..1] && steps[..1][..0] == [] == steps[..0];
    assert Legal(cfg, steps[..1]);
    assert LegalTick(cfg, Run(cfg, steps[..1]), steps[1].input);
  }

  /** The run below keeps to the timer: its clock is monotone and its ticks an interval apart. */
  lemma StalledRunIsLegal()
    ensures Legal(ADAPTIVE, [Dial(true, 0), TickAt(1, [], Ok), TickAt(5, [EchoOfFirst(SECOND * 9 / 2)], Ok)])
  {
    var steps := [Dial(true, 0), TickAt(1, [], Ok), TickAt(5, [EchoOfFirst(SECOND * 9 / 2)], Ok)];
    FirstProbeIsLegal(ADAPTIVE, steps);
    assert LegalTick(ADAPTIVE, Run(ADAPTIVE, steps[..2]), steps[2].input);
  }

  /** An RTT of 3.5 s, above the 3 s cap on the timeout, is recorded: the tick after a stall drains the
      echo before it sweeps. */
  lemma RttAboveCapIsRecorded()
    ensures var steps := [Dial(true, 0), TickAt(1, [], Ok), TickAt(5, [EchoOfFirst(SECOND * 9 / 2)], Ok)];
            var s := Run(ADAPTIVE, steps);
            && s.prevRtt == 3.5 && s.rttCount == 1 && s.timedOut == 0
            && CurrentRto(Run(ADAPTIVE, steps[..2]).est) == SECOND
  {
    var steps := [Dial(true, 0), TickAt(1, [], Ok), TickAt(5, [EchoOfFirst(SECOND * 9 / 2)], Ok)];
    FirstProbe(ADAPTIVE, steps);
    Unfold(ADAPTIVE, steps, 2);
    assert steps[..3] == steps;
    EchoedTick(ADAPTIVE, Run(ADAPTIVE, steps[..2]), SECOND, SECOND * 9 / 2, steps[2].input);
    assert ClampedRto(Initial(SECOND)) == 1.0;
    assert Seconds(SECOND * 9 / 2 - SECOND) == 3.5;
  }

  // ----- Failures that never reach the gauge -----

  /** An interval of 100 s and a re-dial after 300 s, for example. */
  predicate ShortSessions(cfg: Config) {
    ValidConfig(cfg) && cfg.interval < cfg.reconnectAfter <= 3 * cfg.interval
  }

  /** A run of any length that keeps to the timer, measures one echo, and has every write after it fail: the
      link is up throughout, because each session re-dials before its third failure. */
  lemma LinkUpThroughFailures(cfg: Config, n: nat)
    requires ShortSessions(cfg)
    ensures var up := Redial.MeasuringSteps(cfg);
            var life := FailingSteps(cfg, Run(cfg, up), n);
            && |life| == n && FailingLife(cfg, Run(cfg, up), life, cfg.interval)
            && Legal(cfg, up + life) && Run(cfg, up + life).linkUp
  {
    var up := Redial.MeasuringSteps(cfg);
    var life := FailingSteps(cfg, Run(cfg, up), n);
    Redial.MeasuredSession(cfg);
    UpBetweenSessions(cfg, up);
    FailingStepsAreALife(cfg, Run(cfg, up), n);
    LifeIsLegal(cfg, up, life, n, cfg.interval);
    assert life[..n] == life;
    LifeIsUnsent(cfg, up, life);
    ShortSessionsHideFailures(cfg, up, life);
    RunOn(cfg, up, life);
  }

  // ----- A re-dial that resets the jitter -----

  /** A tick that drains nothing, loses nothing and re-dials. */
  lemma FlushingTick(cfg: Config, s: State, t: TickInput)
    requires s.mode.Probing? && t.drained == [] && Overdue(s.pending, t.now, Timeout(cfg, s.est)) == {}
    requires Reconnects(cfg, s.mode.started, t)
    ensures var next := Next(cfg, s, Tick(t));
            && next.mode.Dialing? && next.jitter == s.jitter && next.prevSeq == s.prevSeq && next.havePrev == s.havePrev
            && next.seqNo == s.seqNo && FlushedIn(next.log) == FlushedIn(s.log) + s.pending.Keys
            && LostIn(next.log) == LostIn(s.log)
  {
    QuietSweep(cfg, s, t);
  }

  lemma QuietSweep(cfg: Config, s: State, t: TickInput)
    requires t.drained == [] && Overdue(s.pending, t.now, Timeout(cfg, s.est)) == {}
    ensures var swept := DrainAndSweep(cfg, s, t);
            && swept.mode == s.mode && swept.pending == s.pending && swept.seqNo == s.seqNo && swept.jitter == s.jitter
            && swept.prevSeq == s.prevSeq && swept.havePrev == s.havePrev
            && LostIn(swept.log) == LostIn(s.log) && FlushedIn(swept.log) == FlushedIn(s.log)
  {
  }

  /** Probes 1 and 2 are echoed, probe 3 is sent one second before the re-dial. */
  const REDIALED: seq<Step> :=
    [Dial(true, 0), TickAt(1, [], Ok), Tick(EchoTick(1, SECOND, SECOND / 2, 298 * SECOND)),
     Tick(EchoTick(2, 298 * SECOND, SECOND * 9 / 10, 299 * SECOND)), TickAt(300, [], Ok)]

  /** A run that keeps to the timer, re-dials with probe 3 in flight and flushes it. The jitter estimate is
      25 ms at the re-dial and the echo of the next session's first probe resets it to 0, although no
      probe was lost on the wire. */
  lemma RedialResetsJitter(at: int, t: TickInput, recv: int)
    requires !Reconnects(FIXED, at, t) && t.write.Ok?
    ensures Legal(FIXED, REDIALED)
    ensures var s := Run(FIXED, REDIALED);
            var up := Next(FIXED, Next(FIXED, s, Dial(true, at)), Tick(t));
            && s.mode.Dialing? && 3 in FlushedIn(s.log) && LostIn(s.log) == {} && s.jitter == 0.025
            && Matches(up.pending, Response(4, ToWord(t.now), recv))
            && Receive(FIXED, up, Response(4, ToWord(t.now), recv)).jitter == 0.0
  {
    RedialedRun();
    Redial.RedialKeepsJitterIff(FIXED, REDIALED, at, t, recv);
  }

  /** One probe in flight, sent by the latest tick of the first session, and nothing lost so far. */
  ghost predicate OneInFlight(s: State, n: nat, sentAt: int) {
    && s.mode == Probing(0) && s.seqNo == n && s.pending == map[n := sentAt]
    && Clock(s.log) == sentAt && LostIn(s.log) == {}
  }

  /** The tick in which the only probe in flight is echoed after the given RTT. */
  function EchoTick(n: Word, sentAt: int, rtt: int, now: int): TickInput {
    TickInput([Response(n, ToWord(sentAt), sentAt + rtt)], now, now, Ok)
  }

  lemma EchoedStep(steps: seq<Step>, i: nat, n: Word, sentAt: int, rtt: int, now: int)
    requires i < |steps| && steps[i] == Tick(EchoTick(n, sentAt, rtt, now))
    requires Legal(FIXED, steps[..i]) && OneInFlight(Run(FIXED, steps[..i]), n, sentAt)
    requires sentAt + SECOND <= now < 300 * SECOND && rtt <= SECOND
    ensures var s, next := Run(FIXED, steps[..i]), Run(FIXED, steps[..i + 1]);
            && Legal(FIXED, steps[..i + 1]) && OneInFlight(next, n + 1, now)
            && next.prevSeq == n && next.havePrev && next.prevRtt == Seconds(rtt)
            && next.jitter == NextJitter(s.jitter, s.prevRtt, s.prevSeq, s.havePrev, n, Seconds(rtt))
  {
    LegalUnfold(FIXED, steps, i);
    EchoedTick(FIXED, Run(FIXED, steps[..i]), sentAt, sentAt + rtt, EchoTick(n, sentAt, rtt, now));
  }

  lemma FlushedStep(steps: seq<Step>, i: nat, n: nat, sentAt: int)
    requires i < |steps| && steps[i] == TickAt(300, [], Ok)
    requires Legal(FIXED, steps[..i]) && OneInFlight(Run(FIXED, steps[..i]), n, sentAt)
    requires 290 * SECOND <= sentAt <= 299 * SECOND
    ensures var s, next := Run(FIXED, steps[..i]), Run(FIXED, steps[..i + 1]);
            && Legal(FIXED, steps[..i + 1]) && next.mode.Dialing? && n in FlushedIn(next.log) && LostIn(next.log) == {}
            && next.jitter == s.jitter && next.prevSeq == s.prevSeq && next.havePrev == s.havePrev && next.seqNo == n
  {
    var s := Run(FIXED, steps[..i]);
    LegalUnfold(FIXED, steps, i);
    assert Overdue(s.pending, 300 * SECOND, FIXED.baseTimeout) == {};
    assert n in s.pending.Keys;
    FlushingTick(FIXED, s, steps[i].input);
  }

  lemma JitterOfTwo()
    ensures NextJitter(0.0, Seconds(SECOND / 2), 1, true, 2, Seconds(SECOND * 9 / 10)) == 0.025
  {
    assert Seconds(SECOND / 2) == 0.5 && Seconds(SECOND * 9 / 10) == 0.9;
  }

  lemma RedialedTwo()
    ensures Legal(FIXED, REDIALED[..2])
    ensures var s := Run(FIXED, REDIALED[..2]); OneInFlight(s, 1, SECOND) && !s.havePrev
  {
    FirstProbe(FIXED, REDIALED);
    LegalUnfold(FIXED, REDIALED, 0);
    LegalUnfold(FIXED, REDIALED, 1);
    assert REDIALED[..0] == [];
    var s := Run(FIXED, REDIALED[..1]);
    assert Overdue(map[], SECOND, FIXED.baseTimeout) == {};
    assert LostIn(DrainAndSweep(FIXED, s, REDIALED[1].input).log) == LostIn(s.log);
  }

  lemma RedialedThree()
    ensures Legal(FIXED, REDIALED[..3])
    ensures var s := Run(FIXED, REDIALED[..3]);
            && OneInFlight(s, 2, 298 * SECOND) && s.prevSeq == 1 && s.havePrev
            && s.jitter == 0.0 && s.prevRtt == Seconds(SECOND / 2)
  {
    RedialedTwo();
    EchoedStep(REDIALED, 2, 1, SECOND, SECOND / 2, 298 * SECOND);
  }

  lemma RedialedFour()
    ensures Legal(FIXED, REDIALED[..4])
    ensures var s := Run(FIXED, REDIALED[..4]);
            OneInFlight(s, 3, 299 * SECOND) && s.prevSeq == 2 && s.havePrev && s.jitter == 0.025
  {
    RedialedThree();
    EchoedStep(REDIALED, 3, 2, 298 * SECOND, SECOND * 9 / 10, 299 * SECOND);
    JitterOfTwo();
  }

  lemma RedialedRun()
    ensures Legal(FIXED, REDIALED)
    ensures var s := Run(FIXED, REDIALED);
            && s.mode.Dialing? && 3 in FlushedIn(s.log) && LostIn(s.log) == {} && s.jitter == 0.025
            && s.prevSeq == 2 && s.seqNo == 3 && s.havePrev
  {
    RedialedFour();
    FlushedStep(REDIALED, 4, 3, 299 * SECOND);
    assert REDIALED[..5] == REDIALED;
  }
}
