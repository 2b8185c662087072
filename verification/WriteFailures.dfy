/** link_up while writes keep failing: the documentation says that persistent send failures make it 0, the
    code lowers it once, at the third failure of a streak, and a late echo raises it again. */
module WriteFailures {
  import opened Wire
  import opened ProbeLoop
  import opened Conservation
  import opened Timing
  import opened Resolution
  import opened LinkState

  // ----- The state of the link in a streak of failed writes -----

  /** An echo has come in since the third failure of the current streak of failed writes. */
  predicate EchoSinceThirdFailure(h: History) {
    && h.Then?
    && (|| h.event.Matched?
        || (!(h.event.WriteFailed? && FailStreak(h) == 3) && EchoSinceThirdFailure(h.past)))
  }

  ghost predicate StreakAgrees(s: State) {
    && s.writeFails == FailStreak(s.log)
    && (s.mode.Probing? && s.writeFails >= 3 ==>
          (s.linkUp <==> EchoSinceThirdFailure(s.log) && s.misses < 3))
  }

  lemma {:induction false} DrainStreak(cfg: Config, s: State, responses: seq<Response>)
    requires StreakAgrees(s)
    ensures StreakAgrees(Drain(cfg, s, responses))
    decreases |responses|
  {
    if responses == [] {
    } else {
      DrainStreak(cfg, Receive(cfg, s, responses[0]), responses[1..]);
    }
  }

  lemma SweepStreak(cfg: Config, s: State, now: int, check: int, timeout: int)
    requires StreakAgrees(s)
    ensures StreakAgrees(Sweep(cfg, s, now, check, timeout))
  {
  }

  lemma TickEndStreak(s: State, now: int, result: WriteResult)
    requires StreakAgrees(s)
    ensures StreakAgrees(FlushPending(s)) && StreakAgrees(Write(s, now, result))
  {
  }

  lemma StepStreak(cfg: Config, s: State, step: Step)
    requires StreakAgrees(s)
    ensures StreakAgrees(Next(cfg, s, step))
  {
    if step.Tick? && s.mode.Probing? {
      var t := step.input;
      DrainStreak(cfg, s, t.drained);
      SweepStreak(cfg, Drain(cfg, s, t.drained), t.now, t.check, Timeout(cfg, s.est));
      TickEndStreak(DrainAndSweep(cfg, s, t), t.now, t.write);
    }
  }

  /** In every reachable state of a session in which three or more writes in a row have failed, link_up=1
      exactly when an echo has come in since the third failure and fewer than three probes have been lost
      since the last echo. */
  lemma {:induction false} LinkInStreak(cfg: Config, steps: seq<Step>)
    ensures StreakAgrees(Run(cfg, steps))
  {
    if steps == [] {
    } else {
      var n := |steps| - 1;
      LinkInStreak(cfg, steps[..n]);
      StepStreak(cfg, Run(cfg, steps[..n]), steps[n]);
    }
  }

  // ----- Whether the link can come back without a write -----

  predicate PutsNothingOnTheWire(step: Step) {
    step.Tick? ==> !step.input.write.Ok?
  }

  ghost predicate AllQuiet(steps: seq<Step>) {
    forall i :: 0 <= i < |steps| ==> PutsNothingOnTheWire(steps[i])
  }

  /** With the link down and nothing in flight, link_up stays 0 over any run in which no write
      succeeds, whatever responses arrive and however often the target is re-dialed. */
  lemma {:induction false} DownUntilNextWrite(cfg: Config, s: State, steps: seq<Step>)
    requires !s.linkUp && s.pending == map[]
    requires AllQuiet(steps)
    ensures !RunFrom(cfg, s, steps).linkUp && RunFrom(cfg, s, steps).pending == map[]
  {
    if steps == [] {
    } else {
      var n := |steps| - 1;
      DownUntilNextWrite(cfg, s, steps[..n]);
      var before := RunFrom(cfg, s, steps[..n]);
      assert PutsNothingOnTheWire(steps[n]);
      if steps[n].Tick? { DrainOfNothing(cfg, before, steps[n].input.drained); }
    }
  }

  ghost predicate Includes(echoes: seq<Response>, n: nat, ts: Word) {
    exists i :: 0 <= i < |echoes| && echoes[i].seqNo == n && echoes[i].ts == ts
  }

  /** The echoes of every probe in flight, all received now. */
  lemma {:induction false} EchoesOfAll(pending: map<nat, int>, now: int) returns (echoes: seq<Response>)
    requires forall n :: n in pending ==> n < 0x1_0000_0000_0000_0000
    ensures forall n :: n in pending ==> Includes(echoes, n, ToWord(pending[n]))
    ensures forall r :: r in echoes ==> r.recv == now
    decreases |pending|
  {
    if pending.Keys == {} {
      echoes := [];
    } else {
      var n :| n in pending.Keys;
      var rest := pending - {n};
      assert rest.Keys == pending.Keys - {n};
      var others := EchoesOfAll(rest, now);
      var echo := Response(n, ToWord(pending[n]), now);
      echoes := [echo] + others;
      forall m | m in pending ensures Includes(echoes, m, ToWord(pending[m])) {
        if m == n {
          assert echoes[0] == echo;
        } else {
          assert Includes(others, m, ToWord(rest[m]));
          var i :| 0 <= i < |others| && others[i].seqNo == m && others[i].ts == ToWord(rest[m]);
          assert echoes[i + 1] == others[i];
        }
      }
    }
  }

  /** An echo that resolves anything raises the link, and nothing in the same drain lowers it again. */
  lemma {:induction false} DrainRaises(cfg: Config, s: State, responses: seq<Response>)
    ensures var t := Drain(cfg, s, responses);
            && (s.linkUp && s.misses == 0 ==> t.linkUp && t.misses == 0)
            && (t.pending != s.pending ==> t.linkUp && t.misses == 0)
            && t.writeFails == s.writeFails && t.mode == s.mode
    decreases |responses|
  {
    if responses == [] {
    } else {
      DrainRaises(cfg, Receive(cfg, s, responses[0]), responses[1..]);
    }
  }

  /** A tick that answers everything in flight and writes nothing. */
  function Rescue(cfg: Config, s: State, echoes: seq<Response>): TickInput {
    var now := Clock(s.log) + cfg.interval;
    TickInput(echoes, now, now, if s.writeFails + 1 == 3 then Panicked else Failed)
  }

  lemma RescueRaises(cfg: Config, s: State, echoes: seq<Response>)
    requires s.mode.Probing? && s.pending != map[]
    requires forall n :: n in s.pending ==> Answered(s, n, echoes)
    ensures Next(cfg, s, Tick(Rescue(cfg, s, echoes))).linkUp
  {
    var t := Rescue(cfg, s, echoes);
    var drained := Drain(cfg, s, echoes);
    DrainShrinks(cfg, s, echoes);
    forall n | n in s.pending ensures n !in drained.pending { DrainResolvesAnswered(cfg, s, n, echoes); }
    assert drained.pending == map[];
    DrainRaises(cfg, s, echoes);
    assert Overdue(map[], t.now, Timeout(cfg, s.est)) == {};
    var swept := DrainAndSweep(cfg, s, t);
    assert swept.linkUp && swept.writeFails == s.writeFails;
  }

  /** The steps put nothing on the wire, keep to the timer after the run so far, and raise the link. */
  ghost predicate Raises(cfg: Config, steps: seq<Step>, more: seq<Step>) {
    AllQuiet(more) && Legal(cfg, steps + more) && Run(cfg, steps + more).linkUp
  }

  /** Once the link is down in a session, it can come back without another successful write exactly when a
      probe is still in flight. */
  lemma RaisedWithoutWriteIff(cfg: Config, steps: seq<Step>)
    requires ValidConfig(cfg) && Legal(cfg, steps)
    requires Run(cfg, steps).mode.Probing? && !Run(cfg, steps).linkUp
    requires Run(cfg, steps).seqNo < 0x1_0000_0000_0000_0000
    ensures (exists more :: Raises(cfg, steps, more)) <==> Run(cfg, steps).pending != map[]
  {
    var s := Run(cfg, steps);
    ExactlyOnce(cfg, steps);
    if s.pending == map[] {
      forall more | AllQuiet(more) ensures !Run(cfg, steps + more).linkUp {
        DownUntilNextWrite(cfg, s, more);
        RunOn(cfg, steps, more);
      }
    } else {
      var echoes := EchoesOfAll(s.pending, Clock(s.log) + cfg.interval);
      var t := Rescue(cfg, s, echoes);
      forall n | n in s.pending ensures Answered(s, n, echoes) { assert Includes(echoes, n, ToWord(s.pending[n])); }
      RescueRaises(cfg, s, echoes);
      OneStepMore(cfg, steps, Tick(t));
      OneLegalStepMore(cfg, steps, Tick(t));
      assert Raises(cfg, steps, [Tick(t)]);
    }
  }

  // ----- Failures that go on over any number of sessions -----

  /** A tick with nothing in flight and a write that does not succeed: it re-dials, or fails the write, or
      is recovered from a panic. */
  lemma TickOfNothing(cfg: Config, s: State, t: TickInput)
    requires s.mode.Probing? && s.pending == map[] && !t.write.Ok?
    ensures var next := Next(cfg, s, Tick(t));
            var fails := !Reconnects(cfg, s.mode.started, t) && t.write.Failed?;
            && next.pending == map[] && next.misses == s.misses && Clock(next.log) == t.check
            && next.mode == (if fails then s.mode else Dialing)
            && next.writeFails == (if fails then s.writeFails + 1 else s.writeFails)
            && FailuresIn(next.log) == (if fails then FailuresIn(s.log) + 1 else FailuresIn(s.log))
            && next.linkUp == (s.linkUp && s.misses < 3
                               && (fails ==> s.writeFails + 1 != 3))
  {
    DrainOfNothing(cfg, s, t.drained);
    assert Overdue(map[], t.now, Timeout(cfg, s.est)) == {};
  }

  function FailuresIn(h: History): nat {
    match h
    case Start => 0
    case Then(past, e) => if e.WriteFailed? then FailuresIn(past) + 1 else FailuresIn(past)
  }

  /** Every dial succeeds, every write fails, and the clock is read again at most gap later. */
  ghost predicate FailingStep(cfg: Config, s: State, step: Step, gap: nat) {
    && LegalStep(cfg, s, step)
    && match s.mode
       case Dialing => step.Dial? && step.ok
       case Probing(_) => step.Tick? && step.input.write.Failed? && step.input.check <= Clock(s.log) + gap
       case Ended => false
  }

  ghost predicate FailingAt(cfg: Config, s: State, steps: seq<Step>, i: nat, gap: nat)
    requires i < |steps|
  {
    FailingStep(cfg, RunFrom(cfg, s, steps[..i]), steps[i], gap)
  }

  ghost predicate FailingLife(cfg: Config, s: State, steps: seq<Step>, gap: nat) {
    forall i :: 0 <= i < |steps| ==> FailingAt(cfg, s, steps, i, gap)
  }

  lemma FewIntervals(gap: int)
    ensures Intervals(0, gap) == 0 && Intervals(1, gap) == gap && Intervals(2, gap) == 2 * gap && Intervals(3, gap) == 3 * gap
  {
    assert Intervals(1, gap) == Intervals(0, gap) + gap;
    assert Intervals(2, gap) == Intervals(1, gap) + gap;
  }

  /** The link is down after the third failing tick of the first session, and from then on. */
  ghost predicate DownByFourth(u: State, i: nat, gap: nat) {
    && u.pending == map[]
    && (i == 0 ==> u.mode.Dialing?)
    && (1 <= i <= 3 ==> u.mode.Probing? && u.writeFails == i - 1
                        && Clock(u.log) <= u.mode.started + Intervals(i - 1, gap))
    && (i >= 4 ==> !u.linkUp)
  }

  lemma DownOneStep(cfg: Config, u: State, step: Step, i: nat, gap: nat)
    requires 3 * gap < cfg.reconnectAfter && DownByFourth(u, i, gap) && FailingStep(cfg, u, step, gap)
    ensures DownByFourth(Next(cfg, u, step), i + 1, gap)
  {
    if step.Tick? { TickOfNothing(cfg, u, step.input); }
    FewIntervals(gap);
  }

  lemma DownAt(cfg: Config, s: State, steps: seq<Step>, i: nat, gap: nat)
    requires 3 * gap < cfg.reconnectAfter && i < |steps| && FailingLife(cfg, s, steps, gap)
    requires DownByFourth(RunFrom(cfg, s, steps[..i]), i, gap)
    ensures DownByFourth(RunFrom(cfg, s, steps[..i + 1]), i + 1, gap)
  {
    assert FailingAt(cfg, s, steps, i, gap);
    OneMoreFrom(cfg, s, steps, i);
    DownOneStep(cfg, RunFrom(cfg, s, steps[..i]), steps[i], i, gap);
  }

  lemma {:induction false} GoesDown(cfg: Config, s: State, steps: seq<Step>, i: nat, gap: nat)
    requires 3 * gap < cfg.reconnectAfter && i <= |steps|
    requires s.mode.Dialing? && s.pending == map[] && FailingLife(cfg, s, steps, gap)
    ensures DownByFourth(RunFrom(cfg, s, steps[..i]), i, gap)
  {
    if i == 0 {
      assert steps[..0] == [];
    } else {
      GoesDown(cfg, s, steps, i - 1, gap);
      DownAt(cfg, s, steps, i - 1, gap);
    }
  }

  /** With ticks at most gap apart and the reconnect interval above three gaps, persistent failures put the
      link down: it is down after a dial and three ticks, and stays down however long the failures go on. */
  lemma FailuresLowerLink(cfg: Config, before: seq<Step>, steps: seq<Step>, gap: nat)
    requires 3 * gap < cfg.reconnectAfter && Run(cfg, before).mode.Dialing? && |steps| >= 4
    requires FailingLife(cfg, Run(cfg, before), steps, gap)
    ensures !RunFrom(cfg, Run(cfg, before), steps).linkUp
  {
    ExactlyOnce(cfg, before);
    GoesDown(cfg, Run(cfg, before), steps, |steps|, gap);
    assert steps[..|steps|] == steps;
  }

  /** The link is up, and no session has got to its third failing tick. */
  ghost predicate UpInShortSessions(cfg: Config, u: State)
    requires ValidConfig(cfg)
  {
    && u.pending == map[] && u.linkUp && u.misses < 3
    && (u.mode.Probing? ==> u.writeFails < 3
                            && Clock(u.log) >= u.mode.started + Intervals(u.writeFails, cfg.interval))
  }

  /** No dial fails, nothing is written, and the clock does not run backwards. */
  ghost predicate UnsentAt(cfg: Config, s: State, steps: seq<Step>, i: nat)
    requires i < |steps|
  {
    PutsNothingOnTheWire(steps[i]) && (steps[i].Dial? ==> steps[i].ok)
    && LegalStep(cfg, RunFrom(cfg, s, steps[..i]), steps[i])
  }

  lemma StaysUpOneStep(cfg: Config, u: State, step: Step)
    requires ValidConfig(cfg) && cfg.reconnectAfter <= 3 * cfg.interval && UpInShortSessions(cfg, u)
    requires PutsNothingOnTheWire(step) && (step.Dial? ==> step.ok) && LegalStep(cfg, u, step)
    ensures UpInShortSessions(cfg, Next(cfg, u, step))
  {
    if step.Tick? && u.mode.Probing? {
      TickOfNothing(cfg, u, step.input);
      assert Intervals(u.writeFails + 1, cfg.interval) == Intervals(u.writeFails, cfg.interval) + cfg.interval;
      FewIntervals(cfg.interval);
    }
  }

  lemma StaysUpAt(cfg: Config, s: State, steps: seq<Step>, i: nat)
    requires ValidConfig(cfg) && cfg.reconnectAfter <= 3 * cfg.interval && i < |steps|
    requires UpInShortSessions(cfg, RunFrom(cfg, s, steps[..i])) && UnsentAt(cfg, s, steps, i)
    ensures UpInShortSessions(cfg, RunFrom(cfg, s, steps[..i + 1]))
  {
    OneMoreFrom(cfg, s, steps, i);
    StaysUpOneStep(cfg, RunFrom(cfg, s, steps[..i]), steps[i]);
  }

  lemma {:induction false} StaysUp(cfg: Config, s: State, steps: seq<Step>, i: nat)
    requires ValidConfig(cfg) && cfg.reconnectAfter <= 3 * cfg.interval && UpInShortSessions(cfg, s) && i <= |steps|
    requires forall j :: 0 <= j < |steps| ==> UnsentAt(cfg, s, steps, j)
    ensures UpInShortSessions(cfg, RunFrom(cfg, s, steps[..i]))
  {
    if i == 0 {
      assert steps[..0] == [];
    } else {
      StaysUp(cfg, s, steps, i - 1);
      StaysUpAt(cfg, s, steps, i - 1);
    }
  }

  lemma UpBetweenSessions(cfg: Config, before: seq<Step>)
    requires Run(cfg, before).mode.Dialing? && Run(cfg, before).linkUp
    ensures Run(cfg, before).pending == map[] && Run(cfg, before).misses < 3
  {
    StateIsHistory(cfg, before);
  }

  /** With the reconnect interval at most three probe intervals, writes that fail, panic or are never reached
      do not lower link_up, in any number of sessions: each session re-dials before its third failure. */
  lemma ShortSessionsHideFailures(cfg: Config, before: seq<Step>, steps: seq<Step>)
    requires ValidConfig(cfg) && cfg.reconnectAfter <= 3 * cfg.interval
    requires Run(cfg, before).mode.Dialing? && Run(cfg, before).linkUp
    requires forall j :: 0 <= j < |steps| ==> UnsentAt(cfg, Run(cfg, before), steps, j)
    ensures RunFrom(cfg, Run(cfg, before), steps).linkUp
  {
    UpBetweenSessions(cfg, before);
    StaysUp(cfg, Run(cfg, before), steps, |steps|);
    assert steps[..|steps|] == steps;
  }

  lemma LifeIsUnsent(cfg: Config, before: seq<Step>, steps: seq<Step>)
    requires ValidConfig(cfg) && FailingLife(cfg, Run(cfg, before), steps, cfg.interval)
    ensures forall j :: 0 <= j < |steps| ==> UnsentAt(cfg, Run(cfg, before), steps, j)
  {
    forall j | 0 <= j < |steps| ensures UnsentAt(cfg, Run(cfg, before), steps, j) {
      assert FailingAt(cfg, Run(cfg, before), steps, j, cfg.interval);
    }
  }

  /** Exactly when persistent send failures put the link down: over every life in which all dials succeed,
      all writes fail and the ticks come one interval apart, from a re-dial with the link up, it is down
      from the fourth step on iff the reconnect interval is above three probe intervals, and otherwise up. */
  lemma PersistentFailuresIff(cfg: Config, before: seq<Step>, steps: seq<Step>)
    requires ValidConfig(cfg) && Run(cfg, before).mode.Dialing? && Run(cfg, before).linkUp
    requires FailingLife(cfg, Run(cfg, before), steps, cfg.interval) && |steps| >= 4
    ensures !RunFrom(cfg, Run(cfg, before), steps).linkUp <==> 3 * cfg.interval < cfg.reconnectAfter
  {
    if 3 * cfg.interval < cfg.reconnectAfter {
      FailuresLowerLink(cfg, before, steps, cfg.interval);
    } else {
      LifeIsUnsent(cfg, before, steps);
      ShortSessionsHideFailures(cfg, before, steps);
    }
  }

  predicate PanicsOnly(step: Step) {
    (step.Tick? ==> step.input.write.Panicked?) && (step.Dial? ==> step.ok)
  }

  ghost predicate UpWithoutFailures(u: State) {
    && u.pending == map[] && u.linkUp && u.misses < 3
  }

  lemma {:induction false} PanicsKeepUp(cfg: Config, s: State, steps: seq<Step>)
    requires UpWithoutFailures(s) && forall i :: 0 <= i < |steps| ==> PanicsOnly(steps[i])
    ensures UpWithoutFailures(RunFrom(cfg, s, steps))
  {
    if steps == [] {
    } else {
      var n := |steps| - 1;
      PanicsKeepUp(cfg, s, steps[..n]);
      assert PanicsOnly(steps[n]);
      var u := RunFrom(cfg, s, steps[..n]);
      if steps[n].Tick? && u.mode.Probing? { TickOfNothing(cfg, u, steps[n].input); }
    }
  }

  /** Writes that always panic never lower link_up, in any configuration and for any timing. */
  lemma PanicsNeverLowerLink(cfg: Config, before: seq<Step>, steps: seq<Step>)
    requires Run(cfg, before).mode.Dialing? && Run(cfg, before).linkUp
    requires forall i :: 0 <= i < |steps| ==> PanicsOnly(steps[i])
    ensures RunFrom(cfg, Run(cfg, before), steps).linkUp
  {
    UpBetweenSessions(cfg, before);
    PanicsKeepUp(cfg, Run(cfg, before), steps);
  }

  // ----- Such lives exist, of any length -----

  /** Dial, or a tick one interval later whose write fails. */
  function NextFailing(cfg: Config, s: State): Step {
    var now := Clock(s.log) + cfg.interval;
    if s.mode.Probing? then Tick(TickInput([], now, now, Failed)) else Dial(true, Clock(s.log))
  }

  /** A failing life keeps to the timer. */
  lemma {:induction false} LifeIsLegal(cfg: Config, before: seq<Step>, steps: seq<Step>, i: nat, gap: nat)
    requires Legal(cfg, before) && FailingLife(cfg, Run(cfg, before), steps, gap) && i <= |steps|
    ensures Legal(cfg, before + steps[..i])
  {
    if i == 0 {
      assert before + steps[..0] == before;
    } else {
      LifeIsLegal(cfg, before, steps, i - 1, gap);
      LegalOneLonger(cfg, before, steps, i - 1, gap);
    }
  }

  lemma LegalOneLonger(cfg: Config, before: seq<Step>, steps: seq<Step>, i: nat, gap: nat)
    requires FailingLife(cfg, Run(cfg, before), steps, gap) && i < |steps| && Legal(cfg, before + steps[..i])
    ensures Legal(cfg, before + steps[..i + 1])
  {
    assert FailingAt(cfg, Run(cfg, before), steps, i, gap);
    RunOn(cfg, before, steps[..i]);
    OneLegalStepMore(cfg, before + steps[..i], steps[i]);
    assert before + steps[..i + 1] == (before + steps[..i]) + [steps[i]];
  }

  function FailingSteps(cfg: Config, s: State, n: nat): seq<Step> {
    if n == 0 then []
    else
      var earlier := FailingSteps(cfg, s, n - 1);
      earlier + [NextFailing(cfg, RunFrom(cfg, s, earlier))]
  }

  lemma LifeGoesOn(cfg: Config, s: State, steps: seq<Step>, step: Step, gap: nat)
    requires FailingLife(cfg, s, steps, gap) && FailingStep(cfg, RunFrom(cfg, s, steps), step, gap)
    ensures FailingLife(cfg, s, steps + [step], gap)
    ensures RunFrom(cfg, s, steps + [step]) == Next(cfg, RunFrom(cfg, s, steps), step)
  {
    var more, n := steps + [step], |steps|;
    assert more[..n] == steps;
    forall i | 0 <= i < |more| ensures FailingAt(cfg, s, more, i, gap) {
      if i < n { assert FailingAt(cfg, s, steps, i, gap) && more[..i] == steps[..i]; }
    }
  }

  lemma NextFailingFails(cfg: Config, u: State)
    requires ValidConfig(cfg) && !u.mode.Ended? && u.pending == map[]
    ensures FailingStep(cfg, u, NextFailing(cfg, u), cfg.interval)
    ensures var next := Next(cfg, u, NextFailing(cfg, u)); !next.mode.Ended? && next.pending == map[]
  {
    if u.mode.Probing? { TickOfNothing(cfg, u, NextFailing(cfg, u).input); }
  }

  lemma {:induction false} FailingStepsAreALife(cfg: Config, s: State, n: nat)
    requires ValidConfig(cfg) && s.mode.Dialing? && s.pending == map[]
    ensures var steps := FailingSteps(cfg, s, n);
            && |steps| == n && FailingLife(cfg, s, steps, cfg.interval)
            && !RunFrom(cfg, s, steps).mode.Ended? && RunFrom(cfg, s, steps).pending == map[]
  {
    if n == 0 {
    } else {
      var earlier := FailingSteps(cfg, s, n - 1);
      FailingStepsAreALife(cfg, s, n - 1);
      NextFailingFails(cfg, RunFrom(cfg, s, earlier));
      LifeGoesOn(cfg, s, earlier, NextFailing(cfg, RunFrom(cfg, s, earlier)), cfg.interval);
    }
  }

  /** Between sessions, with the link up and nothing lost. */
  ghost predicate UpAndDialing(s: State) {
    UpWithoutFailures(s) && s.mode.Dialing?
  }

  /** j failing ticks into a session that has seen none of them through. */
  ghost predicate InShortSession(u: State, v: State, j: nat, interval: int) {
    && UpWithoutFailures(v) && v.mode.Probing? && v.writeFails == j
    && Clock(v.log) == v.mode.started + Intervals(j, interval) && FailuresIn(v.log) == FailuresIn(u.log) + j
  }

  lemma ShortSessionTick(cfg: Config, u: State, v: State, j: nat)
    requires ValidConfig(cfg) && 2 * cfg.interval < cfg.reconnectAfter <= 3 * cfg.interval
    requires InShortSession(u, v, j, cfg.interval) && j <= 2
    ensures var next := Next(cfg, v, NextFailing(cfg, v));
            if j < 2 then InShortSession(u, next, j + 1, cfg.interval)
            else UpAndDialing(next) && FailuresIn(next.log) == FailuresIn(u.log) + 2
  {
    FewIntervals(cfg.interval);
    TickOfNothing(cfg, v, NextFailing(cfg, v).input);
  }

  /** A session of two failed writes, which re-dials at its third tick and leaves the link up; so the next
      session is another one. */
  lemma OneShortSession(cfg: Config, u: State)
    requires ValidConfig(cfg) && 2 * cfg.interval < cfg.reconnectAfter <= 3 * cfg.interval && UpAndDialing(u)
    ensures var a := Next(cfg, u, NextFailing(cfg, u));
            var b := Next(cfg, a, NextFailing(cfg, a));
            var c := Next(cfg, b, NextFailing(cfg, b));
            var d := Next(cfg, c, NextFailing(cfg, c));
            UpAndDialing(d) && FailuresIn(d.log) == FailuresIn(u.log) + 2
  {
    var a := Next(cfg, u, NextFailing(cfg, u));
    FewIntervals(cfg.interval);
    ShortSessionTick(cfg, u, a, 0);
    var b := Next(cfg, a, NextFailing(cfg, a));
    ShortSessionTick(cfg, u, b, 1);
    ShortSessionTick(cfg, u, Next(cfg, b, NextFailing(cfg, b)), 2);
  }
}
