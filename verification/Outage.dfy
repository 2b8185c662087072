/** An outage: from the first lost probe on, with no echo coming in, when link_up falls. */
module Outage {
  import opened ProbeLoop
  import opened Conservation
  import opened LinkState

  /** A step that matches nothing, is no failed dial, and is not a third failed write in a row. */
  ghost predicate Silence(cfg: Config, u: State, step: Step) {
    var next := Next(cfg, u, step);
    && next.rttCount == u.rttCount
    && (step.Dial? ==> step.ok)
    && !(u.writeFails == 2 && next.writeFails == 3)
  }

  ghost predicate SilenceAt(cfg: Config, s: State, steps: seq<Step>, i: nat)
    requires i < |steps|
  {
    Silence(cfg, RunFrom(cfg, s, steps[..i]), steps[i])
  }

  /** link_up and the misses since s, in a state reached without an echo. */
  ghost predicate DownAtThree(cfg: Config, s: State, u: State) {
    && HistoryAgrees(cfg, u)
    && (u.linkUp <==> u.misses < 3)
    && u.misses + |LostIn(s.log)| == s.misses + |LostIn(u.log)|
  }

  lemma SweepInOutage(cfg: Config, s: State, u: State, now: int, check: int, timeout: int)
    requires DownAtThree(cfg, s, u) && u.mode.Probing?
    ensures DownAtThree(cfg, s, Sweep(cfg, u, now, check, timeout))
  {
    var lost := Overdue(u.pending, now, timeout);
    SweepAgrees(cfg, u, now, check, timeout);
    SweepFates(cfg, u, now, check, timeout);
    JoinedSize(LostIn(u.log), lost);
  }

  lemma TickEndInOutage(cfg: Config, s: State, u: State, now: int, result: WriteResult)
    requires DownAtThree(cfg, s, u) && u.mode.Probing?
    ensures DownAtThree(cfg, s, FlushPending(u))
    ensures !(u.writeFails == 2 && Write(u, now, result).writeFails == 3) ==> DownAtThree(cfg, s, Write(u, now, result))
  {
    FlushAgrees(cfg, u);
    WriteAgrees(cfg, u, now, result);
  }

  lemma TickEndKeepsCount(u: State, now: int, result: WriteResult)
    ensures FlushPending(u).rttCount == u.rttCount == Write(u, now, result).rttCount
  {
  }

  lemma TickInOutage(cfg: Config, s: State, u: State, t: TickInput)
    requires DownAtThree(cfg, s, u) && u.mode.Probing? && Silence(cfg, u, Tick(t))
    ensures DownAtThree(cfg, s, Next(cfg, u, Tick(t)))
  {
    var swept := DrainAndSweep(cfg, u, t);
    TickEndKeepsCount(swept, t.now, t.write);
    DrainCounts(cfg, u, t.drained);
    assert Drain(cfg, u, t.drained) == u && swept.writeFails == u.writeFails;
    SweepInOutage(cfg, s, u, t.now, t.check, Timeout(cfg, u.est));
    TickEndInOutage(cfg, s, swept, t.now, t.write);
  }

  lemma StepInOutage(cfg: Config, s: State, u: State, step: Step)
    requires DownAtThree(cfg, s, u) && Silence(cfg, u, step)
    ensures DownAtThree(cfg, s, Next(cfg, u, step))
  {
    if step.Tick? && u.mode.Probing? {
      TickInOutage(cfg, s, u, step.input);
    } else {
      NextAgrees(cfg, u, step);
    }
  }

  lemma {:induction false} OutageOverSteps(cfg: Config, s: State, steps: seq<Step>, i: nat)
    requires DownAtThree(cfg, s, s) && i <= |steps| && forall j :: 0 <= j < |steps| ==> SilenceAt(cfg, s, steps, j)
    ensures DownAtThree(cfg, s, RunFrom(cfg, s, steps[..i]))
  {
    if i == 0 {
      assert steps[..0] == [];
    } else {
      OutageOverSteps(cfg, s, steps, i - 1);
      OneMoreFrom(cfg, s, steps, i - 1);
      assert SilenceAt(cfg, s, steps, i - 1);
      StepInOutage(cfg, s, RunFrom(cfg, s, steps[..i - 1]), steps[i - 1]);
    }
  }

  /** From any reachable state with the link up, over any steps that bring no echo, no failed dial and no
      third failed write, through re-dials and panics: link_up is 0 exactly when three or more probes have
      been lost on the wire since the last echo. It is still 1 after the second. */
  lemma DownAtThirdLoss(cfg: Config, before: seq<Step>, steps: seq<Step>)
    requires Run(cfg, before).linkUp && forall j :: 0 <= j < |steps| ==> SilenceAt(cfg, Run(cfg, before), steps, j)
    ensures var s, t := Run(cfg, before), RunFrom(cfg, Run(cfg, before), steps);
            && (!t.linkUp <==> |LostSinceMatch(t.log)| >= 3)
            && |LostSinceMatch(t.log)| - |LostSinceMatch(s.log)| == |LostIn(t.log)| - |LostIn(s.log)|
  {
    StateIsHistory(cfg, before);
    OutageOverSteps(cfg, Run(cfg, before), steps, |steps|);
    assert steps[..|steps|] == steps;
  }
}
