/** The accounting of probes over all runs: every probe written is resolved at most once, and the
    counters and the gauge agree with what happened, across re-dials, write failures, panics and
    restarts, whatever responses arrive. */
module Conservation {
  import opened ProbeLoop

  function One(b: bool): nat { if b then 1 else 0 }

  /** How many of the five fates a number has: matched, lost, flushed, abandoned, still pending. */
  function Fates(s: State, n: nat): nat {
    One(n in s.pending) + One(n in MatchedIn(s.log)) + One(n in LostIn(s.log))
    + One(n in FlushedIn(s.log)) + One(n in AbandonedIn(s.log))
  }

  /** Every probe put on the wire has exactly one fate; nothing else has any. */
  ghost predicate ExactlyOneFate(s: State) {
    forall n: nat :: Fates(s, n) == One(1 <= n <= s.seqNo)
  }

  ghost predicate Counted(s: State) {
    && s.sent == s.seqNo
    && s.rttCount == |MatchedIn(s.log)|
    && s.timedOut == |LostIn(s.log)| + |FlushedIn(s.log)|
    && s.inflight == |s.pending|
    && s.sent == s.rttCount + s.timedOut + s.inflight + |AbandonedIn(s.log)|
  }

  ghost predicate SendTimesKept(s: State) {
    && (forall n :: n in SentIn(s.log) <==> 1 <= n <= s.seqNo)
    && (forall n :: n in s.pending ==> n in SentIn(s.log) && SentIn(s.log)[n] == s.pending[n])
  }

  ghost predicate Consistent(s: State) {
    && ExactlyOneFate(s)
    && Counted(s)
    && SendTimesKept(s)
    && (!s.mode.Probing? ==> s.pending == map[])
    && (!s.mode.Ended? ==> AbandonedIn(s.log) == {})
  }

  // ----- Every operation keeps the accounts -----

  lemma JoinedSize(a: set<nat>, b: set<nat>)
    requires a !! b
    ensures |a + b| == |a| + |b|
  {
  }

  lemma RemovedSize(m: map<nat, int>, gone: set<nat>)
    requires gone <= m.Keys
    ensures |m - gone| == |m| - |gone|
  {
    assert (m - gone).Keys == m.Keys - gone;
    JoinedSize(m.Keys - gone, gone);
    assert m.Keys == (m.Keys - gone) + gone;
  }

  lemma InsertedSize(m: map<nat, int>, n: nat, v: int)
    requires n !in m
    ensures |m[n := v]| == |m| + 1
  {
    assert m[n := v].Keys == m.Keys + {n};
    JoinedSize(m.Keys, {n});
  }

  lemma ReceiveKeeps(cfg: Config, s: State, r: Response)
    requires Consistent(s) && s.mode.Probing?
    ensures Consistent(Receive(cfg, s, r)) && Receive(cfg, s, r).mode == s.mode
  {
    if Matches(s.pending, r) {
      var t := Receive(cfg, s, r);
      var n: nat := r.seqNo;
      assert Fates(s, n) <= 1;
      RemovedSize(s.pending, {n});
      JoinedSize(MatchedIn(s.log), {n});
      forall k: nat ensures Fates(t, k) == Fates(s, k) {}
    }
  }

  lemma {:induction false} DrainKeeps(cfg: Config, s: State, responses: seq<Response>)
    requires Consistent(s) && s.mode.Probing?
    ensures Consistent(Drain(cfg, s, responses)) && Drain(cfg, s, responses).mode == s.mode
    decreases |responses|
  {
    if responses == [] {
    } else {
      ReceiveKeeps(cfg, s, responses[0]);
      DrainKeeps(cfg, Receive(cfg, s, responses[0]), responses[1..]);
    }
  }

  lemma SweepFates(cfg: Config, s: State, now: int, check: int, timeout: int)
    requires ExactlyOneFate(s)
    ensures ExactlyOneFate(Sweep(cfg, s, now, check, timeout)) && Overdue(s.pending, now, timeout) !! LostIn(s.log)
  {
    var t := Sweep(cfg, s, now, check, timeout);
    forall k: nat ensures Fates(t, k) == Fates(s, k) { assert Fates(s, k) <= 1; }
    forall n | n in Overdue(s.pending, now, timeout) ensures n !in LostIn(s.log) { assert Fates(s, n) <= 1; }
  }

  lemma SweepKeeps(cfg: Config, s: State, now: int, check: int, timeout: int)
    requires Consistent(s) && s.mode.Probing?
    ensures Consistent(Sweep(cfg, s, now, check, timeout)) && Sweep(cfg, s, now, check, timeout).mode == s.mode
  {
    var lost := Overdue(s.pending, now, timeout);
    SweepFates(cfg, s, now, check, timeout);
    RemovedSize(s.pending, lost);
    JoinedSize(LostIn(s.log), lost);
  }

  lemma FlushKeeps(s: State)
    requires Consistent(s) && s.mode.Probing?
    ensures Consistent(FlushPending(s))
  {
    var t := FlushPending(s);
    forall n | n in s.pending ensures n !in FlushedIn(s.log) { assert Fates(s, n) <= 1; }
    JoinedSize(FlushedIn(s.log), s.pending.Keys);
    forall k: nat ensures Fates(t, k) == Fates(s, k) { assert Fates(s, k) <= 1; }
  }

  lemma RegisterFates(s: State, now: int)
    requires ExactlyOneFate(s)
    ensures ExactlyOneFate(Register(s, now)) && s.seqNo + 1 !in s.pending
  {
    var t := Register(s, now);
    assert Fates(s, t.seqNo) == 0;
    forall k: nat ensures Fates(t, k) == Fates(s, k) + One(k == t.seqNo) {}
  }

  lemma RegisterKeeps(s: State, now: int)
    requires Consistent(s) && s.mode.Probing?
    ensures Consistent(Register(s, now))
  {
    RegisterFates(s, now);
    InsertedSize(s.pending, s.seqNo + 1, now);
  }

  lemma FailWriteKeeps(s: State)
    requires Consistent(s) && s.mode.Probing?
    ensures Consistent(FailWrite(s))
  {
    forall k: nat ensures Fates(FailWrite(s), k) == Fates(s, k) {}
  }

  lemma WriteKeeps(s: State, now: int, result: WriteResult)
    requires Consistent(s) && s.mode.Probing?
    ensures Consistent(Write(s, now, result))
  {
    match result
    case Ok => RegisterKeeps(s, now);
    case Failed => FailWriteKeeps(s);
    case Panicked => FlushKeeps(s);
  }

  lemma CancelKeeps(s: State)
    requires Consistent(s)
    ensures Consistent(AfterCancel(s))
  {
    var t := AfterCancel(s);
    if s.mode.Probing? {
      assert AbandonedIn(t.log) == s.pending.Keys;
    }
    forall k: nat ensures Fates(t, k) == Fates(s, k) {}
  }

  lemma DialKeeps(s: State, ok: bool, at: int)
    requires Consistent(s) && s.mode.Dialing?
    ensures Consistent(AfterDial(s, ok, at))
  {
    forall k: nat ensures Fates(AfterDial(s, ok, at), k) == Fates(s, k) {}
  }

  lemma TickKeeps(cfg: Config, s: State, t: TickInput)
    requires Consistent(s) && s.mode.Probing?
    ensures Consistent(AfterTick(cfg, s, s.mode.started, t))
  {
    DrainKeeps(cfg, s, t.drained);
    SweepKeeps(cfg, Drain(cfg, s, t.drained), t.now, t.check, Timeout(cfg, s.est));
    var swept := DrainAndSweep(cfg, s, t);
    if Reconnects(cfg, s.mode.started, t) { FlushKeeps(swept); }
    else { WriteKeeps(swept, t.now, t.write); }
  }

  lemma NextKeeps(cfg: Config, s: State, step: Step)
    requires Consistent(s)
    ensures Consistent(Next(cfg, s, step))
  {
    match step
    case Dial(ok, at) => if s.mode.Dialing? { DialKeeps(s, ok, at); }
    case Tick(t) => if s.mode.Probing? { TickKeeps(cfg, s, t); }
    case Cancel => CancelKeeps(s);
  }

  // ----- Main results -----

  /** In every reachable state the probes written, 1..seqNo, split into matched, lost, flushed,
      abandoned and pending ones, and sent = rtt_count + timed_out + inflight + abandoned. */
  lemma {:induction false} ExactlyOnce(cfg: Config, steps: seq<Step>)
    ensures Consistent(Run(cfg, steps))
  {
    if steps == [] {
      forall k: nat ensures Fates(InitialState(cfg), k) == 0 {}
    } else {
      var n := |steps| - 1;
      ExactlyOnce(cfg, steps[..n]);
      NextKeeps(cfg, Run(cfg, steps[..n]), steps[n]);
    }
  }

  /** The balance the counters promise while the target is probed, and after every exit of the loop:
      nothing is in flight outside a session, and only cancellation leaves probes unaccounted for. */
  lemma Balance(cfg: Config, steps: seq<Step>)
    ensures var s := Run(cfg, steps);
            && (!s.mode.Probing? ==> s.inflight == 0)
            && (!s.mode.Ended? ==> s.sent == s.rttCount + s.timedOut + s.inflight)
            && (s.mode.Ended? ==> s.sent == s.rttCount + s.timedOut + |AbandonedIn(s.log)|)
            && s.inflight >= 0 && s.timedOut >= 0
  {
    ExactlyOnce(cfg, steps);
  }

  /** probeTarget ends exactly when it is cancelled; no dial failure, write failure, re-dial or panic
      ends it. */
  lemma {:induction false} EndsOnlyOnCancellation(cfg: Config, steps: seq<Step>)
    ensures Run(cfg, steps).mode.Ended? <==> Cancel in steps
  {
    if steps == [] {
    } else {
      var n := |steps| - 1;
      EndsOnlyOnCancellation(cfg, steps[..n]);
      assert steps == steps[..n] + [steps[n]];
      var s := Run(cfg, steps[..n]);
      match steps[n]
      case Tick(t) => TickNeverEnds(cfg, s, t);
      case _ =>
    }
  }

  lemma TickNeverEnds(cfg: Config, s: State, t: TickInput)
    ensures Next(cfg, s, Tick(t)).mode.Ended? <==> s.mode.Ended?
  {
    if s.mode.Probing? {
      DrainKeepsMode(cfg, s, t.drained);
      TickEndMode(DrainAndSweep(cfg, s, t), t.now, t.write);
    }
  }

  lemma TickEndMode(s: State, now: int, result: WriteResult)
    ensures FlushPending(s).mode.Dialing?
    ensures Write(s, now, result).mode == if result.Panicked? then Dialing else s.mode
  {
  }

  lemma {:induction false} DrainKeepsMode(cfg: Config, s: State, responses: seq<Response>)
    ensures Drain(cfg, s, responses).mode == s.mode
    decreases |responses|
  {
    if responses == [] {
    } else {
      DrainKeepsMode(cfg, Receive(cfg, s, responses[0]), responses[1..]);
    }
  }

  /** A drain that matches nothing changes nothing. */
  lemma {:induction false} DrainCounts(cfg: Config, s: State, responses: seq<Response>)
    ensures var t := Drain(cfg, s, responses); t.rttCount >= s.rttCount && (t.rttCount == s.rttCount ==> t == s)
    decreases |responses|
  {
    if responses == [] {
    } else {
      DrainCounts(cfg, Receive(cfg, s, responses[0]), responses[1..]);
    }
  }
}
