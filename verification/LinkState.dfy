/** link_up, the miss counter and the estimator as functions of the history of a run: what they say
    about the past, which the program only tracks step by step. */
module LinkState {
  import opened Units
  import EstimatorRuns
  import opened ProbeLoop
  import opened Conservation

  /** The probes lost on the wire since the last echo, across sessions; flushed probes are not lost. */
  function LostSinceMatch(h: History): set<nat> {
    match h
    case Start => {}
    case Then(past, e) =>
      if e.Matched? then {} else if e.Swept? then LostSinceMatch(past) + e.lost else LostSinceMatch(past)
  }

  /** The failed writes since the last successful one in this session. */
  function FailStreak(h: History): nat {
    match h
    case Start => 0
    case Then(past, e) =>
      if e.WriteFailed? then 1 + FailStreak(past)
      else if e.Sent? || e.Dialed? then 0
      else FailStreak(past)
  }

  /** The measurements and timeouts the estimator has seen. */
  function Observed(cfg: Config, h: History): seq<EstimatorRuns.Op> {
    match h
    case Start => []
    case Then(past, e) =>
      if cfg.adaptive && e.Matched? then Observed(cfg, past) + [EstimatorRuns.Measured(Seconds(e.rtt))]
      else if cfg.adaptive && e.Swept? && e.lost != {} then Observed(cfg, past) + [EstimatorRuns.Expired]
      else Observed(cfg, past)
  }

  /** The latest event is one that lowers link_up: a failed dial, a write failure that is exactly the
      third in a row, or a sweep that leaves three or more probes lost since the last echo. */
  predicate Lowers(h: History)
    requires h.Then?
  {
    || h.event.DialFailed?
    || (h.event.WriteFailed? && FailStreak(h) == 3)
    || (h.event.Swept? && |LostSinceMatch(h)| >= 3)
  }

  /** An echo has come in since link_up was last lowered. */
  predicate EchoSinceLowered(h: History) {
    h.Then? && (h.event.Matched? || (!Lowers(h) && EchoSinceLowered(h.past)))
  }

  /** The estimator's timeout count against the loop's miss count: one backoff per sweep, however many
      probes it loses. */
  predicate Coupled(s: State) {
    s.est.consecutiveTimeouts <= s.misses && (s.est.consecutiveTimeouts == 0 <==> s.misses == 0)
  }

  ghost predicate CountsAgree(cfg: Config, s: State) {
    && LostSinceMatch(s.log) <= LostIn(s.log)
    && s.misses == |LostSinceMatch(s.log)|
    && s.writeFails == FailStreak(s.log)
    && s.est == EstimatorRuns.Fold(cfg.baseTimeout, Observed(cfg, s.log))
    && (cfg.adaptive ==> Coupled(s))
  }

  ghost predicate LinkAgrees(s: State) {
    (s.linkUp <==> EchoSinceLowered(s.log)) && (s.linkUp ==> s.misses < 3)
  }

  ghost predicate HistoryAgrees(cfg: Config, s: State) {
    Consistent(s) && CountsAgree(cfg, s) && LinkAgrees(s)
  }

  // ----- Every operation keeps the agreement -----

  lemma OneMoreOp(base: int, ops: seq<EstimatorRuns.Op>, op: EstimatorRuns.Op)
    ensures EstimatorRuns.Fold(base, ops + [op]) == EstimatorRuns.Apply(EstimatorRuns.Fold(base, ops), op)
  {
    assert (ops + [op])[..|ops|] == ops;
  }

  lemma ReceiveAgrees(cfg: Config, s: State, r: Response)
    requires s.mode.Probing? && HistoryAgrees(cfg, s)
    ensures HistoryAgrees(cfg, Receive(cfg, s, r))
  {
    ReceiveKeeps(cfg, s, r);
    if Matches(s.pending, r) {
      OneMoreOp(cfg.baseTimeout, Observed(cfg, s.log), EstimatorRuns.Measured(Seconds(r.recv - s.pending[r.seqNo])));
    }
  }

  lemma {:induction false} DrainAgrees(cfg: Config, s: State, responses: seq<Response>)
    requires s.mode.Probing? && HistoryAgrees(cfg, s)
    ensures HistoryAgrees(cfg, Drain(cfg, s, responses)) && Drain(cfg, s, responses).mode == s.mode
    decreases |responses|
  {
    if responses == [] {
    } else {
      ReceiveAgrees(cfg, s, responses[0]);
      DrainAgrees(cfg, Receive(cfg, s, responses[0]), responses[1..]);
    }
  }

  lemma SweepCountsAgree(cfg: Config, s: State, now: int, check: int, timeout: int)
    requires s.mode.Probing? && Consistent(s) && CountsAgree(cfg, s)
    ensures CountsAgree(cfg, Sweep(cfg, s, now, check, timeout))
  {
    var lost := Overdue(s.pending, now, timeout);
    SweepFates(cfg, s, now, check, timeout);
    JoinedSize(LostSinceMatch(s.log), lost);
    OneMoreOp(cfg.baseTimeout, Observed(cfg, s.log), EstimatorRuns.Expired);
  }

  lemma SweepAgrees(cfg: Config, s: State, now: int, check: int, timeout: int)
    requires s.mode.Probing? && HistoryAgrees(cfg, s)
    ensures HistoryAgrees(cfg, Sweep(cfg, s, now, check, timeout))
  {
    SweepKeeps(cfg, s, now, check, timeout);
    SweepCountsAgree(cfg, s, now, check, timeout);
  }

  lemma FlushAgrees(cfg: Config, s: State)
    requires s.mode.Probing? && HistoryAgrees(cfg, s)
    ensures HistoryAgrees(cfg, FlushPending(s))
  {
    FlushKeeps(s);
  }

  lemma WriteAgrees(cfg: Config, s: State, now: int, result: WriteResult)
    requires s.mode.Probing? && HistoryAgrees(cfg, s)
    ensures HistoryAgrees(cfg, Write(s, now, result))
  {
    WriteKeeps(s, now, result);
  }

  lemma TickAgrees(cfg: Config, s: State, t: TickInput)
    requires s.mode.Probing? && HistoryAgrees(cfg, s)
    ensures HistoryAgrees(cfg, AfterTick(cfg, s, s.mode.started, t))
  {
    DrainAgrees(cfg, s, t.drained);
    SweepAgrees(cfg, Drain(cfg, s, t.drained), t.now, t.check, Timeout(cfg, s.est));
    var swept := DrainAndSweep(cfg, s, t);
    if Reconnects(cfg, s.mode.started, t) { FlushAgrees(cfg, swept); }
    else { WriteAgrees(cfg, swept, t.now, t.write); }
  }

  lemma DialAgrees(cfg: Config, s: State, ok: bool, at: int)
    requires s.mode.Dialing? && HistoryAgrees(cfg, s)
    ensures HistoryAgrees(cfg, AfterDial(s, ok, at))
  {
    DialKeeps(s, ok, at);
  }

  lemma CancelAgrees(cfg: Config, s: State)
    requires HistoryAgrees(cfg, s)
    ensures HistoryAgrees(cfg, AfterCancel(s))
  {
    CancelKeeps(s);
  }

  lemma NextAgrees(cfg: Config, s: State, step: Step)
    requires HistoryAgrees(cfg, s)
    ensures HistoryAgrees(cfg, Next(cfg, s, step))
  {
    match step
    case Dial(ok, at) => if s.mode.Dialing? { DialAgrees(cfg, s, ok, at); }
    case Tick(t) => if s.mode.Probing? { TickAgrees(cfg, s, t); }
    case Cancel => CancelAgrees(cfg, s);
  }

  // ----- Main results -----

  /** In every reachable state: the miss counter is the number of probes lost on the wire since the
      last echo; the estimator is the fold of what was observed; in adaptive mode its timeout count is
      coupled to the misses; link_up=1 exactly when an echo has come in since the last failed dial,
      third failed write in a row or third miss in a row; and link_up=1 means fewer than three misses. */
  lemma {:induction false} StateIsHistory(cfg: Config, steps: seq<Step>)
    ensures HistoryAgrees(cfg, Run(cfg, steps))
  {
    if steps == [] {
      ExactlyOnce(cfg, []);
    } else {
      var n := |steps| - 1;
      StateIsHistory(cfg, steps[..n]);
      NextAgrees(cfg, Run(cfg, steps[..n]), steps[n]);
    }
  }

  /** link_up goes from 1 to 0 only on a failed dial, on a third miss in a row, or on a write failure
      that is exactly the third in a row. */
  lemma OnlyThreeCausesLowerLink(cfg: Config, s: State, step: Step)
    requires s.linkUp && !Next(cfg, s, step).linkUp
    ensures var t := Next(cfg, s, step);
            || (step.Dial? && !step.ok)
            || t.misses >= 3
            || (step.Tick? && step.input.write.Failed? && t.writeFails == 3)
  {
    if step.Tick? && s.mode.Probing? {
      var t := step.input;
      DrainKeepsLink(cfg, s, t.drained);
      SweepLowersOnMisses(cfg, Drain(cfg, s, t.drained), t.now, t.check, Timeout(cfg, s.est));
      TickEndLowersOnThirdFailure(DrainAndSweep(cfg, s, t), t.now, t.write);
    }
  }

  lemma SweepLowersOnMisses(cfg: Config, s: State, now: int, check: int, timeout: int)
    requires s.linkUp
    ensures Sweep(cfg, s, now, check, timeout).linkUp || Sweep(cfg, s, now, check, timeout).misses >= 3
  {
  }

  lemma TickEndLowersOnThirdFailure(s: State, now: int, result: WriteResult)
    ensures FlushPending(s).linkUp == s.linkUp && FlushPending(s).misses == s.misses == Write(s, now, result).misses
    ensures Write(s, now, result).linkUp == s.linkUp
            || (result.Failed? && Write(s, now, result).writeFails == 3)
  {
  }

  lemma {:induction false} DrainKeepsLink(cfg: Config, s: State, responses: seq<Response>)
    requires s.linkUp
    ensures Drain(cfg, s, responses).linkUp
    decreases |responses|
  {
    if responses == [] {
    } else {
      DrainKeepsLink(cfg, Receive(cfg, s, responses[0]), responses[1..]);
    }
  }
}
