/** What the clocks guarantee over runs whose ticks are at least one interval apart: a bound on the
    probes in flight, a bound on every RTT that can be recorded, and no losses on a prompt link. */
module Timing {
  import opened Units
  import opened Wire
  import opened Estimator
  import EstimatorRuns
  import opened ProbeLoop
  import opened Conservation

  /** The instant of the last tick, or of the dial if the session has had none: the time its sweep used
      and its probe carries. */
  function LastTick(h: History): int {
    match h
    case Start => 0
    case Then(past, e) => if e.Dialed? || e.Swept? || e.Sent? then e.at else LastTick(past)
  }

  /** The latest reading of the clock: the reconnect check comes after the sweep. */
  function Clock(h: History): int {
    match h
    case Start => 0
    case Then(past, e) =>
      if e.Swept? then e.check else if e.Dialed? || e.DialFailed? then e.at else Clock(past)
  }

  /** The timeout in force at the last tick of the session. */
  function LastTimeout(h: History): int {
    match h
    case Start => 0
    case Then(past, e) => if e.Swept? then e.timeout else if e.Dialed? then 0 else LastTimeout(past)
  }

  /** The interval timer is re-armed before every wait, responses are stamped before they are drained,
      and the reconnect check reads the clock last. */
  ghost predicate LegalTick(cfg: Config, s: State, t: TickInput) {
    && t.now >= Clock(s.log) + cfg.interval
    && t.check >= t.now
    && forall r :: r in t.drained ==> r.recv <= t.now
  }

  /** The clock does not run backwards. */
  ghost predicate LegalStep(cfg: Config, s: State, step: Step) {
    match step
    case Dial(_, at) => s.mode.Dialing? ==> at >= Clock(s.log)
    case Tick(t) => s.mode.Probing? ==> LegalTick(cfg, s, t)
    case Cancel => true
  }

  ghost predicate Legal(cfg: Config, steps: seq<Step>) {
    steps == [] ||
    var n := |steps| - 1;
    Legal(cfg, steps[..n]) && LegalStep(cfg, Run(cfg, steps[..n]), steps[n])
  }

  lemma OneLegalStepMore(cfg: Config, steps: seq<Step>, step: Step)
    requires Legal(cfg, steps) && LegalStep(cfg, Run(cfg, steps), step)
    ensures Legal(cfg, steps + [step])
  {
    assert (steps + [step])[..|steps|] == steps;
  }

  lemma TwoLegalStepsMore(cfg: Config, steps: seq<Step>, a: Step, b: Step)
    requires Legal(cfg, steps) && LegalStep(cfg, Run(cfg, steps), a) && LegalStep(cfg, Next(cfg, Run(cfg, steps), a), b)
    ensures Run(cfg, steps + ([a] + [b])) == Next(cfg, Next(cfg, Run(cfg, steps), a), b)
    ensures Legal(cfg, steps + ([a] + [b]))
  {
    OneStepMore(cfg, steps, a);
    OneLegalStepMore(cfg, steps, a);
    OneStepMore(cfg, steps + [a], b);
    OneLegalStepMore(cfg, steps + [a], b);
    assert steps + ([a] + [b]) == (steps + [a]) + [b];
  }

  // ----- The spacing of pending probes -----

  /** The length of k intervals. */
  function Intervals(k: nat, interval: int): int {
    if k == 0 then 0 else Intervals(k - 1, interval) + interval
  }

  lemma {:induction false} IntervalsAreMultiples(k: nat, interval: int)
    ensures Intervals(k, interval) == k * interval
  {
    if k == 0 {
    } else {
      IntervalsAreMultiples(k - 1, interval);
    }
  }

  lemma {:induction false} MoreIntervals(j: nat, k: nat, interval: int)
    requires j <= k && interval > 0
    ensures Intervals(j, interval) <= Intervals(k, interval)
  {
    if j == k {
    } else {
      MoreIntervals(j, k - 1, interval);
    }
  }

  lemma DivisionLeavesLess(timeout: int, interval: int)
    requires interval > 0 && timeout >= 0
    ensures timeout / interval >= 0 && timeout < (timeout / interval + 1) * interval
  {
    var q := timeout / interval;
    assert timeout == q * interval + timeout % interval;
    assert (q + 1) * interval == q * interval + interval;
  }

  lemma WholeIntervals(k: nat, interval: int, timeout: int)
    requires interval > 0 && timeout >= 0 && Intervals(k, interval) <= timeout
    ensures k <= timeout / interval
  {
    DivisionLeavesLess(timeout, interval);
    if k > timeout / interval {
      MoreIntervals(timeout / interval + 1, k, interval);
      IntervalsAreMultiples(timeout / interval + 1, interval);
      assert false;
    }
  }

  /** A probe sent k probes before the latest one is at least k intervals older than the clock. */
  ghost predicate Spaced(pending: map<nat, int>, latest: nat, clock: int, interval: int) {
    forall n :: n in pending ==> n <= latest && Intervals(latest - n, interval) <= clock - pending[n]
  }

  ghost predicate YoungerThan(pending: map<nat, int>, clock: int, timeout: int) {
    forall n :: n in pending ==> clock - pending[n] <= timeout
  }

  ghost predicate Timely(cfg: Config, s: State)
    requires ValidConfig(cfg)
  {
    s.mode.Probing? ==>
      && LastTick(s.log) <= Clock(s.log)
      && Spaced(s.pending, s.seqNo, LastTick(s.log), cfg.interval)
      && YoungerThan(s.pending, LastTick(s.log), LastTimeout(s.log))
      && LastTimeout(s.log) >= 0
      && |s.pending| <= LastTimeout(s.log) / cfg.interval + 1
  }

  lemma {:induction false} DrainShrinks(cfg: Config, s: State, responses: seq<Response>)
    ensures var t := Drain(cfg, s, responses);
            && t.pending.Keys <= s.pending.Keys
            && (forall n :: n in t.pending ==> t.pending[n] == s.pending[n])
            && t.seqNo == s.seqNo && t.mode == s.mode
            && LastTick(t.log) == LastTick(s.log) && Clock(t.log) == Clock(s.log) && LastTimeout(t.log) == LastTimeout(s.log)
    decreases |responses|
  {
    if responses == [] {
    } else {
      DrainShrinks(cfg, Receive(cfg, s, responses[0]), responses[1..]);
    }
  }

  /** At most hi - lo numbers lie in (lo, hi]. */
  lemma {:induction false} FewBetween(keys: set<nat>, lo: int, hi: int)
    requires lo <= hi && forall n :: n in keys ==> lo < n <= hi
    ensures |keys| <= hi - lo
    decreases hi - lo
  {
    if lo == hi {
      assert keys == {};
    } else if hi in keys {
      FewBetween(keys - {hi}, lo, hi - 1);
    } else {
      FewBetween(keys, lo, hi - 1);
    }
  }

  /** Probes spaced an interval apart, the latest at least one interval old and none older than the
      timeout, are at most timeout/interval in number. */
  lemma SpacedProbesAreFew(pending: map<nat, int>, latest: nat, now: int, interval: int, timeout: int)
    requires interval > 0 && timeout >= 0
    requires Spaced(pending, latest, now - interval, interval) && YoungerThan(pending, now, timeout)
    ensures |pending| <= timeout / interval
  {
    var bound := timeout / interval;
    forall n | n in pending.Keys ensures latest - bound < n <= latest {
      assert Intervals(latest - n + 1, interval) <= timeout;
      WholeIntervals(latest - n + 1, interval, timeout);
    }
    FewBetween(pending.Keys, latest - bound, latest);
  }

  lemma TimeoutIsPositive(cfg: Config, e: Estimate)
    requires ValidConfig(cfg)
    ensures Timeout(cfg, e) > 0
  {
    EstimatorRuns.ClampBounds(e);
  }

  /** After the sweep of a tick, at most timeout/interval probes are pending. */
  lemma SweepBoundsInFlight(cfg: Config, s: State, t: TickInput)
    requires ValidConfig(cfg) && s.mode.Probing?
    requires Timely(cfg, s) && LegalTick(cfg, s, t)
    ensures var swept := DrainAndSweep(cfg, s, t);
            && |swept.pending| <= Timeout(cfg, s.est) / cfg.interval
            && Spaced(swept.pending, swept.seqNo, t.now - cfg.interval, cfg.interval)
            && YoungerThan(swept.pending, t.now, Timeout(cfg, s.est))
  {
    TimeoutIsPositive(cfg, s.est);
    DrainShrinks(cfg, s, t.drained);
    var swept := DrainAndSweep(cfg, s, t);
    SpacedProbesAreFew(swept.pending, swept.seqNo, t.now, cfg.interval, Timeout(cfg, s.est));
  }

  lemma RegisterSpaced(s: State, now: int, interval: int, timeout: int)
    requires Spaced(s.pending, s.seqNo, now - interval, interval) && YoungerThan(s.pending, now, timeout) && timeout >= 0
    ensures var t := Register(s, now);
            Spaced(t.pending, t.seqNo, now, interval) && YoungerThan(t.pending, now, timeout)
  {
  }

  lemma WriteTimely(cfg: Config, s: State, now: int, result: WriteResult)
    requires ValidConfig(cfg) && LastTick(s.log) == now <= Clock(s.log) && LastTimeout(s.log) >= 0
    requires |s.pending| <= LastTimeout(s.log) / cfg.interval
    requires Spaced(s.pending, s.seqNo, now - cfg.interval, cfg.interval)
    requires YoungerThan(s.pending, now, LastTimeout(s.log))
    ensures Timely(cfg, Write(s, now, result))
  {
    if result.Ok? {
      InsertedSize(s.pending, s.seqNo + 1, now);
      RegisterSpaced(s, now, cfg.interval, LastTimeout(s.log));
    }
  }

  lemma TickTimely(cfg: Config, s: State, t: TickInput)
    requires ValidConfig(cfg) && s.mode.Probing? && Timely(cfg, s) && LegalTick(cfg, s, t)
    ensures Timely(cfg, AfterTick(cfg, s, s.mode.started, t))
  {
    SweepBoundsInFlight(cfg, s, t);
    TimeoutIsPositive(cfg, s.est);
    WriteTimely(cfg, DrainAndSweep(cfg, s, t), t.now, t.write);
  }

  lemma NextTimely(cfg: Config, s: State, step: Step)
    requires ValidConfig(cfg) && Timely(cfg, s)
    requires step.Tick? && s.mode.Probing? ==> LegalTick(cfg, s, step.input)
    ensures Timely(cfg, Next(cfg, s, step))
  {
    if step.Tick? && s.mode.Probing? { TickTimely(cfg, s, step.input); }
  }

  lemma {:induction false} RunIsTimely(cfg: Config, steps: seq<Step>)
    requires ValidConfig(cfg) && Legal(cfg, steps)
    ensures Timely(cfg, Run(cfg, steps))
  {
    if steps == [] {
    } else {
      var n := |steps| - 1;
      RunIsTimely(cfg, steps[..n]);
      NextTimely(cfg, Run(cfg, steps[..n]), steps[n]);
    }
  }

  /** While the target is probed, sent - rtt_count - timed_out never exceeds timeout/interval + 1, for
      the timeout in force at the last tick, although the adaptive timeout changes at every tick. */
  lemma InFlightBound(cfg: Config, steps: seq<Step>)
    requires ValidConfig(cfg) && Legal(cfg, steps) && Run(cfg, steps).mode.Probing?
    ensures var s := Run(cfg, steps);
            s.sent - s.rttCount - s.timedOut == s.inflight <= LastTimeout(s.log) / cfg.interval + 1
  {
    RunIsTimely(cfg, steps);
    ExactlyOnce(cfg, steps);
  }

  // ----- The life of a socket -----

  /** As long as a session lasts, the clock has been read less than the reconnect interval after the dial. */
  lemma {:induction false} SessionClock(cfg: Config, steps: seq<Step>)
    requires cfg.reconnectAfter > 0 && Legal(cfg, steps)
    ensures var s := Run(cfg, steps);
            s.mode.Probing? ==> Clock(s.log) - s.mode.started < cfg.reconnectAfter
  {
    if steps == [] {
    } else {
      var n := |steps| - 1;
      SessionClock(cfg, steps[..n]);
      var s := Run(cfg, steps[..n]);
      if steps[n].Tick? && s.mode.Probing? {
        var t := steps[n].input;
        DrainShrinks(cfg, s, t.drained);
        TickClock(DrainAndSweep(cfg, s, t), t.now, t.check, t.write);
      }
    }
  }

  /** The re-dial is never starved, however many probes are in flight: with ticks at most gap apart, no tick
      finds a session older than the reconnect interval plus the gap, and the first one that finds it as
      old as the reconnect interval ends it. */
  lemma SocketLifetime(cfg: Config, steps: seq<Step>, t: TickInput, gap: int)
    requires cfg.reconnectAfter > 0 && Legal(cfg, steps) && Run(cfg, steps).mode.Probing?
    requires t.check <= Clock(Run(cfg, steps).log) + gap
    ensures t.check - Run(cfg, steps).mode.started < cfg.reconnectAfter + gap
    ensures t.check - Run(cfg, steps).mode.started >= cfg.reconnectAfter ==> Next(cfg, Run(cfg, steps), Tick(t)).mode.Dialing?
  {
    SessionClock(cfg, steps);
  }

  lemma TickClock(s: State, now: int, check: int, result: WriteResult)
    requires LastTick(s.log) == now && Clock(s.log) == check
    ensures LastTick(Write(s, now, result).log) == now && Clock(Write(s, now, result).log) == check
    ensures Write(s, now, result).mode == if result.Panicked? then Dialing else s.mode
  {
  }

  // ----- The largest RTT that can be recorded -----

  /** The echoes matched since the last tick are no older than that tick's timeout plus the time since. */
  ghost predicate BatchWithin(h: History, now: int) {
    h.Then? && h.event.Matched? ==>
      h.event.rtt <= LastTimeout(h) + now - LastTick(h) && BatchWithin(h.past, now)
  }

  ghost predicate RttsBounded(h: History) {
    match h
    case Start => true
    case Then(past, e) => RttsBounded(past) && (e.Swept? ==> BatchWithin(past, e.at))
  }

  /** Nothing was matched since the last tick. */
  predicate AtTickBoundary(h: History) {
    h.Then? ==> !h.event.Matched?
  }

  lemma {:induction false} DrainBatch(cfg: Config, s: State, responses: seq<Response>, now: int)
    requires RttsBounded(s.log) && BatchWithin(s.log, now)
    requires YoungerThan(s.pending, LastTick(s.log), LastTimeout(s.log))
    requires forall r :: r in responses ==> r.recv <= now
    ensures RttsBounded(Drain(cfg, s, responses).log) && BatchWithin(Drain(cfg, s, responses).log, now)
    decreases |responses|
  {
    if responses == [] {
    } else {
      assert responses[0] in responses;
      DrainBatch(cfg, Receive(cfg, s, responses[0]), responses[1..], now);
    }
  }

  lemma TickEndKeepsBounds(s: State, now: int, result: WriteResult)
    requires RttsBounded(s.log) && AtTickBoundary(s.log)
    ensures RttsBounded(FlushPending(s).log) && AtTickBoundary(FlushPending(s).log)
    ensures RttsBounded(Write(s, now, result).log) && AtTickBoundary(Write(s, now, result).log)
  {
  }

  lemma StepKeepsBounds(cfg: Config, s: State, step: Step)
    requires ValidConfig(cfg) && Timely(cfg, s) && LegalStep(cfg, s, step)
    requires RttsBounded(s.log) && AtTickBoundary(s.log)
    ensures RttsBounded(Next(cfg, s, step).log) && AtTickBoundary(Next(cfg, s, step).log)
  {
    if step.Tick? && s.mode.Probing? {
      var t := step.input;
      DrainBatch(cfg, s, t.drained, t.now);
      TickEndKeepsBounds(DrainAndSweep(cfg, s, t), t.now, t.write);
    }
  }

  /** Every RTT recorded in a run is at most the timeout in force at the previous tick plus the gap
      between the two ticks: the drain precedes the sweep, so an echo may be older than the timeout. */
  lemma {:induction false} RecordedRttBound(cfg: Config, steps: seq<Step>)
    requires ValidConfig(cfg) && Legal(cfg, steps)
    ensures RttsBounded(Run(cfg, steps).log) && AtTickBoundary(Run(cfg, steps).log)
  {
    if steps == [] {
    } else {
      var n := |steps| - 1;
      RecordedRttBound(cfg, steps[..n]);
      RunIsTimely(cfg, steps[..n]);
      StepKeepsBounds(cfg, Run(cfg, steps[..n]), steps[n]);
    }
  }

  /** The RTTs recorded, in order. */
  function RttsIn(h: History): seq<int> {
    match h
    case Start => []
    case Then(past, e) => if e.Matched? then RttsIn(past) + [e.rtt] else RttsIn(past)
  }

  /** The RTT is no more than the age some pending probe has reached by then. */
  ghost predicate AgeAtLeast(pending: map<nat, int>, latest: int, rtt: int) {
    exists n :: n in pending && latest - pending[n] >= rtt
  }

  lemma {:induction false} DrainRecords(cfg: Config, s: State, responses: seq<Response>, latest: int)
    requires forall r :: r in responses ==> r.recv <= latest
    ensures var rtts, more := RttsIn(s.log), RttsIn(Drain(cfg, s, responses).log);
            rtts <= more && forall i :: |rtts| <= i < |more| ==> AgeAtLeast(s.pending, latest, more[i])
    decreases |responses|
  {
    if responses == [] {
    } else {
      var r := responses[0];
      assert r in responses;
      var next := Receive(cfg, s, r);
      DrainRecords(cfg, next, responses[1..], latest);
      var rtts, more := RttsIn(s.log), RttsIn(Drain(cfg, s, responses).log);
      forall i | |rtts| <= i < |more| ensures AgeAtLeast(s.pending, latest, more[i]) {
        if i >= |RttsIn(next.log)| {
          assert AgeAtLeast(next.pending, latest, more[i]);
          var n :| n in next.pending && latest - next.pending[n] >= more[i];
          assert n in s.pending;
        } else {
          assert latest - s.pending[r.seqNo] >= more[i];
        }
      }
    }
  }

  lemma TickEndRecordsNothing(s: State, now: int, result: WriteResult)
    ensures RttsIn(FlushPending(s).log) == RttsIn(s.log) == RttsIn(Write(s, now, result).log)
  {
  }

  /** The tick records an RTT above x. */
  ghost predicate RecordsAbove(cfg: Config, s: State, t: TickInput, x: int) {
    var more := RttsIn(Next(cfg, s, Tick(t)).log);
    exists i :: |RttsIn(s.log)| <= i < |more| && more[i] > x
  }

  ghost predicate TickWithin(cfg: Config, s: State, t: TickInput, gap: int) {
    LegalTick(cfg, s, t) && t.now <= Clock(s.log) + gap
  }

  lemma TickRecords(cfg: Config, s: State, t: TickInput)
    requires s.mode.Probing?
    ensures RttsIn(Next(cfg, s, Tick(t)).log) == RttsIn(Drain(cfg, s, t.drained).log)
  {
    var swept := DrainAndSweep(cfg, s, t);
    TickEndRecordsNothing(swept, t.now, t.write);
  }

  /** A tick that drains the echo of a pending probe, received just then, and records its age. */
  lemma LateEchoIsRecorded(cfg: Config, s: State, n: nat, gap: int, x: int)
    requires s.mode.Probing? && cfg.interval <= gap && n in s.pending && n < 0x1_0000_0000_0000_0000
    requires Clock(s.log) + gap - s.pending[n] > x
    ensures exists t :: TickWithin(cfg, s, t, gap) && RecordsAbove(cfg, s, t, x)
  {
    var now := Clock(s.log) + gap;
    var echo := Response(n, ToWord(s.pending[n]), now);
    var t := TickInput([echo], now, now, Failed);
    assert Drain(cfg, s, t.drained) == Receive(cfg, s, echo) by { assert t.drained[1..] == []; }
    TickRecords(cfg, s, t);
    var more := RttsIn(Next(cfg, s, Tick(t)).log);
    assert more == RttsIn(s.log) + [now - s.pending[n]];
    assert more[|RttsIn(s.log)|] > x;
    assert TickWithin(cfg, s, t, gap) && RecordsAbove(cfg, s, t, x);
  }

  /** When an RTT above any value, such as the cap on the timeout, can be recorded: at a tick at most gap
      after the last reading of the clock, exactly if some probe in flight will by then be older than that. */
  lemma RttAboveIff(cfg: Config, steps: seq<Step>, gap: int, x: int)
    requires cfg.interval <= gap && Run(cfg, steps).mode.Probing? && Run(cfg, steps).seqNo < 0x1_0000_0000_0000_0000
    ensures var s := Run(cfg, steps);
            (exists t :: TickWithin(cfg, s, t, gap) && RecordsAbove(cfg, s, t, x))
            <==> exists n :: n in s.pending && Clock(s.log) + gap - s.pending[n] > x
  {
    var s := Run(cfg, steps);
    ExactlyOnce(cfg, steps);
    forall t | TickWithin(cfg, s, t, gap) && RecordsAbove(cfg, s, t, x)
      ensures exists n :: n in s.pending && Clock(s.log) + gap - s.pending[n] > x
    {
      DrainRecords(cfg, s, t.drained, Clock(s.log) + gap);
      TickRecords(cfg, s, t);
      var more := RttsIn(Next(cfg, s, Tick(t)).log);
      var i :| |RttsIn(s.log)| <= i < |more| && more[i] > x;
      assert AgeAtLeast(s.pending, Clock(s.log) + gap, more[i]);
    }
    forall n | n in s.pending && Clock(s.log) + gap - s.pending[n] > x
      ensures exists t :: TickWithin(cfg, s, t, gap) && RecordsAbove(cfg, s, t, x)
    {
      LateEchoIsRecorded(cfg, s, n, gap, x);
    }
  }

  // ----- A lossless, prompt link -----

  /** Every RTT is in [lo, hi], and the echo of every probe older than hi is in the queue. */
  ghost predicate PromptTick(s: State, t: TickInput, lo: int, hi: int) {
    && (forall r :: r in t.drained && Matches(s.pending, r) ==> lo <= r.recv - s.pending[r.seqNo] <= hi)
    && (forall n :: n in s.pending && t.now - s.pending[n] > hi ==> Answered(s, n, t.drained))
  }

  /** The timeout that an SRTT of lo guarantees: the floor of max(200 ms, 2*SRTT). */
  function Headroom(lo: int): int {
    if 2 * lo >= SECOND / 5 then 2 * lo else SECOND / 5
  }

  /** Some of the responses echoes the number and the timestamp of a pending probe. */
  ghost predicate Answers(pending: map<nat, int>, responses: seq<Response>, n: nat)
    requires n in pending
  {
    exists i :: 0 <= i < |responses| && responses[i].seqNo == n && responses[i].ts == ToWord(pending[n])
  }

  ghost predicate Answered(s: State, n: nat, responses: seq<Response>)
    requires n in s.pending
  {
    Answers(s.pending, responses, n)
  }

  ghost predicate Prompt(cfg: Config, s: State, steps: seq<Step>, lo: int) {
    steps == [] ||
    var n := |steps| - 1;
    var before := RunFrom(cfg, s, steps[..n]);
    && Prompt(cfg, s, steps[..n], lo)
    && (steps[n].Tick? && before.mode.Probing? ==> PromptTick(before, steps[n].input, lo, Headroom(lo)))
  }

  lemma {:induction false} AnsweredIsResolved(cfg: Config, s: State, n: nat, responses: seq<Response>)
    requires n in s.pending && Answered(s, n, responses)
    ensures n !in Drain(cfg, s, responses).pending
    decreases |responses|
  {
    var i :| 0 <= i < |responses| && responses[i].seqNo == n && responses[i].ts == ToWord(s.pending[n]);
    var next := Receive(cfg, s, responses[0]);
    if i == 0 {
      DrainShrinks(cfg, next, responses[1..]);
    } else if n in next.pending {
      assert responses[1..][i - 1] == responses[i];
      AnsweredIsResolved(cfg, next, n, responses[1..]);
    } else {
      DrainShrinks(cfg, next, responses[1..]);
    }
  }

  lemma {:induction false} DrainKeepsFloor(cfg: Config, s: State, responses: seq<Response>, lo: int)
    requires s.est.srtt >= Seconds(lo) > 0.0
    requires forall r :: r in responses && Matches(s.pending, r) ==> lo <= r.recv - s.pending[r.seqNo]
    ensures Drain(cfg, s, responses).est.srtt >= Seconds(lo)
    decreases |responses|
  {
    if responses == [] {
    } else {
      assert responses[0] in responses;
      DrainKeepsFloor(cfg, Receive(cfg, s, responses[0]), responses[1..], lo);
    }
  }

  lemma FloorCoversTwofold(e: Estimate, lo: int)
    requires e.srtt >= Seconds(lo)
    ensures CurrentRto(e) >= Headroom(lo) >= 2 * lo
  {
    EstimatorRuns.ClampBounds(e);
    assert 2.0 * e.srtt * 1_000_000_000.0 >= (2 * lo) as real;
  }

  /** From any state whose SRTT is at least lo, a link whose RTTs stay in [lo, max(2*lo, 200 ms)], and whose
      echoes are queued by the time they are due, never has a probe counted as lost: the floor on the
      timeout is above every RTT, and the drain precedes the sweep. AdaptiveLoop.PromptLinkLosesNothing
      starts from reachable states, and HeadroomIsExact shows that a nanosecond more can lose a probe. */
  lemma {:induction false} NoLossOnPromptLink(cfg: Config, s: State, steps: seq<Step>, lo: int)
    requires cfg.adaptive && lo > 0 && s.est.srtt >= Seconds(lo)
    requires Prompt(cfg, s, steps, lo)
    ensures LostIn(RunFrom(cfg, s, steps).log) == LostIn(s.log)
    ensures RunFrom(cfg, s, steps).est.srtt >= Seconds(lo)
  {
    if steps == [] {
    } else {
      var n := |steps| - 1;
      var before := RunFrom(cfg, s, steps[..n]);
      NoLossOnPromptLink(cfg, s, steps[..n], lo);
      if steps[n].Tick? && before.mode.Probing? {
        PromptTickLosesNothing(cfg, before, steps[n].input, lo);
      }
    }
  }

  lemma PromptTickLosesNothing(cfg: Config, s: State, t: TickInput, lo: int)
    requires cfg.adaptive && lo > 0 && s.est.srtt >= Seconds(lo) && s.mode.Probing?
    requires PromptTick(s, t, lo, Headroom(lo))
    ensures var next := AfterTick(cfg, s, s.mode.started, t);
            LostIn(next.log) == LostIn(s.log) && next.est.srtt >= Seconds(lo)
  {
    DrainKeepsFloor(cfg, s, t.drained, lo);
    DrainLosesNothing(cfg, s, t.drained);
    NothingOverdue(cfg, s, t, lo);
    EmptySweep(cfg, Drain(cfg, s, t.drained), t.now, t.check, Timeout(cfg, s.est));
    TickEndLosesNothing(DrainAndSweep(cfg, s, t), t.now, t.write);
  }

  lemma EmptySweep(cfg: Config, s: State, now: int, check: int, timeout: int)
    requires Overdue(s.pending, now, timeout) == {}
    ensures LostIn(Sweep(cfg, s, now, check, timeout).log) == LostIn(s.log)
    ensures Sweep(cfg, s, now, check, timeout).est == s.est
  {
  }

  lemma TickEndLosesNothing(s: State, now: int, result: WriteResult)
    ensures LostIn(FlushPending(s).log) == LostIn(s.log) && FlushPending(s).est == s.est
    ensures LostIn(Write(s, now, result).log) == LostIn(s.log) && Write(s, now, result).est == s.est
  {
  }

  lemma NothingOverdue(cfg: Config, s: State, t: TickInput, lo: int)
    requires cfg.adaptive && lo > 0 && s.est.srtt >= Seconds(lo)
    requires PromptTick(s, t, lo, Headroom(lo))
    ensures Overdue(Drain(cfg, s, t.drained).pending, t.now, Timeout(cfg, s.est)) == {}
  {
    FloorCoversTwofold(s.est, lo);
    DrainShrinks(cfg, s, t.drained);
    var drained := Drain(cfg, s, t.drained);
    forall n | n in drained.pending ensures t.now - drained.pending[n] <= Timeout(cfg, s.est) {
      if t.now - s.pending[n] > Headroom(lo) { AnsweredIsResolved(cfg, s, n, t.drained); }
    }
  }

  lemma {:induction false} DrainLosesNothing(cfg: Config, s: State, responses: seq<Response>)
    ensures LostIn(Drain(cfg, s, responses).log) == LostIn(s.log)
    decreases |responses|
  {
    if responses == [] {
    } else {
      DrainLosesNothing(cfg, Receive(cfg, s, responses[0]), responses[1..]);
    }
  }

  /** After four or more equal RTTs the timeout in force is down to that floor, to the nanosecond. */
  lemma TimeoutMeetsFloor(base: int, rtt: int, n: nat)
    requires rtt > 0 && n >= 4
    ensures CurrentRto(EstimatorRuns.Fold(base, EstimatorRuns.Repeat(Seconds(rtt), n))) == Headroom(rtt)
  {
    EstimatorRuns.SteadyLink(base, Seconds(rtt), n);
    SpreadDecays(2.0 * Seconds(rtt), n - 1);
    FloorInForce(EstimatorRuns.Fold(base, EstimatorRuns.Repeat(Seconds(rtt), n)), rtt);
  }

  lemma FloorInForce(e: Estimate, rtt: int)
    requires rtt > 0 && e.srtt == Seconds(rtt) && e.rto <= Seconds(rtt) + Max(0.001, Seconds(rtt))
    ensures CurrentRto(e) == Headroom(rtt)
  {
    var floor := Max(0.2, 2.0 * e.srtt);
    assert e.rto <= floor;
    assert ClampedRto(e) == floor;
    assert 2.0 * Seconds(rtt) * 1_000_000_000.0 == (2 * rtt) as real;
    assert 0.2 * 1_000_000_000.0 == (SECOND / 5) as real;
    if 2 * rtt >= SECOND / 5 { assert 2.0 * e.srtt >= 0.2; } else { assert 2.0 * e.srtt < 0.2; }
  }

  lemma {:induction false} SpreadDecays(first: real, n: nat)
    requires first >= 0.0 && n >= 3
    ensures EstimatorRuns.Spread(first, n) <= first / 2.0
  {
    if n == 3 {
      assert EstimatorRuns.Spread(first, 1) == 0.75 * first;
      assert EstimatorRuns.Spread(first, 2) == 0.75 * (0.75 * first);
    } else {
      SpreadDecays(first, n - 1);
    }
  }
}
