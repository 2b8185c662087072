/** What one tick does to each pending probe, stated probe by probe: the meaning of the drain, the
    sweep, the re-dial and the write taken together. */
module Resolution {
  import opened Units
  import opened Wire
  import opened Estimator
  import opened ProbeLoop
  import opened Conservation
  import opened Timing

  /** The drain resolves exactly the probes for which a queued response echoes the right timestamp. */
  lemma {:induction false} DrainResolvesAnswered(cfg: Config, s: State, n: nat, responses: seq<Response>)
    requires n in s.pending
    ensures var t := Drain(cfg, s, responses);
            && (n in t.pending <==> !Answered(s, n, responses))
            && (n in t.pending ==> t.pending[n] == s.pending[n])
            && (n in MatchedIn(t.log) <==> n in MatchedIn(s.log) || Answered(s, n, responses))
    decreases |responses|
  {
    if responses == [] {
    } else {
      var r, rest := responses[0], responses[1..];
      var next := Receive(cfg, s, r);
      assert forall i :: 0 <= i < |rest| ==> rest[i] == responses[i + 1];
      if r.seqNo == n && Matches(s.pending, r) {
        assert responses[0].seqNo == n;
        ResolvedStays(cfg, next, n, rest);
      } else {
        DrainResolvesAnswered(cfg, next, n, rest);
        assert Answered(next, n, rest) <==> Answered(s, n, responses) by {
          if Answered(next, n, rest) {
            var i :| 0 <= i < |rest| && rest[i].seqNo == n && rest[i].ts == ToWord(s.pending[n]);
            assert responses[i + 1].seqNo == n;
          }
          if Answered(s, n, responses) {
            var i :| 0 <= i < |responses| && responses[i].seqNo == n && responses[i].ts == ToWord(s.pending[n]);
            assert i > 0 && rest[i - 1].seqNo == n;
          }
        }
      }
    }
  }

  lemma {:induction false} ResolvedStays(cfg: Config, s: State, n: nat, responses: seq<Response>)
    requires n !in s.pending && n in MatchedIn(s.log)
    ensures n !in Drain(cfg, s, responses).pending && n in MatchedIn(Drain(cfg, s, responses).log)
    decreases |responses|
  {
    if responses == [] {
    } else {
      ResolvedStays(cfg, Receive(cfg, s, responses[0]), n, responses[1..]);
    }
  }

  lemma {:induction false} DrainOfNothing(cfg: Config, s: State, responses: seq<Response>)
    requires s.pending == map[]
    ensures Drain(cfg, s, responses) == s
    decreases |responses|
  {
    if responses == [] {
    } else {
      DrainOfNothing(cfg, s, responses[1..]);
    }
  }

  /** What the drain and the sweep of a tick leave of a pending probe: it is matched iff a queued
      response answers it, however late the answer came; otherwise it is lost iff it is older than the
      timeout in force; otherwise it is still pending, with its send time, when the tick decides between
      re-dialing and writing. */
  lemma SweepResolution(cfg: Config, steps: seq<Step>, t: TickInput, n: nat)
    requires Run(cfg, steps).mode.Probing? && n in Run(cfg, steps).pending
    ensures var s := Run(cfg, steps);
            var swept := DrainAndSweep(cfg, s, t);
            var answered, overdue := Answered(s, n, t.drained), t.now - s.pending[n] > Timeout(cfg, s.est);
            && (n in MatchedIn(swept.log) <==> answered)
            && (n in LostIn(swept.log) <==> !answered && overdue)
            && (n in swept.pending <==> !answered && !overdue)
            && (n in swept.pending ==> swept.pending[n] == s.pending[n])
  {
    var s := Run(cfg, steps);
    ExactlyOnce(cfg, steps);
    assert Fates(s, n) <= 1;
    DrainResolvesAnswered(cfg, s, n, t.drained);
    DrainLosesNothing(cfg, s, t.drained);
    SweepOfOne(cfg, Drain(cfg, s, t.drained), t.now, t.check, Timeout(cfg, s.est), n);
  }

  lemma SweepOfOne(cfg: Config, s: State, now: int, check: int, timeout: int, n: nat)
    requires n !in LostIn(s.log)
    ensures var t := Sweep(cfg, s, now, check, timeout);
            && MatchedIn(t.log) == MatchedIn(s.log)
            && (n in LostIn(t.log) <==> n in s.pending && now - s.pending[n] > timeout)
            && (n in t.pending <==> n in s.pending && now - s.pending[n] <= timeout)
            && (n in t.pending ==> t.pending[n] == s.pending[n])
  {
  }

  /** Whether a tick ends the session: by the periodic re-dial, or by a panicking write. */
  predicate EndsSession(cfg: Config, s: State, t: TickInput)
    requires s.mode.Probing?
  {
    Reconnects(cfg, s.mode.started, t) || t.write.Panicked?
  }

  /** What ends a tick flushes everything pending, or keeps it and adds at most the probe just written. */
  ghost predicate Finished(swept: State, next: State, ends: bool, t: TickInput) {
    && MatchedIn(next.log) == MatchedIn(swept.log) && LostIn(next.log) == LostIn(swept.log)
    && FlushedIn(next.log) == (if ends then FlushedIn(swept.log) + swept.pending.Keys else FlushedIn(swept.log))
    && next.pending == if ends then map[] else if t.write.Ok? then swept.pending[swept.seqNo + 1 := t.now] else swept.pending
  }

  lemma FlushFinishes(swept: State, t: TickInput)
    ensures Finished(swept, FlushPending(swept), true, t)
  {
  }

  lemma WriteFinishes(swept: State, t: TickInput)
    ensures Finished(swept, Write(swept, t.now, t.write), t.write.Panicked?, t)
  {
  }

  lemma TickFinishes(cfg: Config, s: State, t: TickInput)
    requires s.mode.Probing?
    ensures Finished(DrainAndSweep(cfg, s, t), Next(cfg, s, Tick(t)), EndsSession(cfg, s, t), t)
  {
    FlushFinishes(DrainAndSweep(cfg, s, t), t);
    WriteFinishes(DrainAndSweep(cfg, s, t), t);
  }

  lemma SweptStaysConsistent(cfg: Config, s: State, t: TickInput, n: nat)
    requires Consistent(s) && s.mode.Probing? && n in s.pending
    ensures var swept := DrainAndSweep(cfg, s, t);
            n !in FlushedIn(s.log) && FlushedIn(swept.log) == FlushedIn(s.log) && n <= swept.seqNo
  {
    assert Fates(s, n) == 1;
    DrainFlushesNothing(cfg, s, t.drained);
    DrainShrinks(cfg, s, t.drained);
  }

  lemma {:induction false} DrainFlushesNothing(cfg: Config, s: State, responses: seq<Response>)
    ensures FlushedIn(Drain(cfg, s, responses).log) == FlushedIn(s.log)
    decreases |responses|
  {
    if responses == [] {
    } else {
      DrainFlushesNothing(cfg, Receive(cfg, s, responses[0]), responses[1..]);
    }
  }

  /** The fate of a pending probe at one whole tick, drain, sweep, re-dial and write: matched iff
      answered; lost iff unanswered and overdue; flushed iff neither and the tick ends the session; and
      still pending, with its send time, iff neither and the session goes on. */
  lemma TickResolution(cfg: Config, steps: seq<Step>, t: TickInput, n: nat)
    requires Run(cfg, steps).mode.Probing? && n in Run(cfg, steps).pending
    ensures var s := Run(cfg, steps);
            var next := Next(cfg, s, Tick(t));
            var answered, overdue := Answered(s, n, t.drained), t.now - s.pending[n] > Timeout(cfg, s.est);
            && (n in MatchedIn(next.log) <==> answered)
            && (n in LostIn(next.log) <==> !answered && overdue)
            && (n in FlushedIn(next.log) <==> EndsSession(cfg, s, t) && !answered && !overdue)
            && (n in next.pending <==> !EndsSession(cfg, s, t) && !answered && !overdue)
            && (n in next.pending ==> next.pending[n] == s.pending[n])
  {
    ExactlyOnce(cfg, steps);
    SweepResolution(cfg, steps, t, n);
    TickFinishes(cfg, Run(cfg, steps), t);
    SweptStaysConsistent(cfg, Run(cfg, steps), t, n);
  }

  /** A tick that drains the echo of the only probe in flight and sends the next one. */
  lemma EchoedTick(cfg: Config, s: State, sentAt: int, recv: int, t: TickInput)
    requires s.mode.Probing? && s.pending == map[s.seqNo := sentAt] && s.seqNo < 0x1_0000_0000_0000_0000
    requires t.drained == [Response(s.seqNo, ToWord(sentAt), recv)]
    requires !Reconnects(cfg, s.mode.started, t) && t.write.Ok?
    ensures var next := Next(cfg, s, Tick(t));
            && next.mode == s.mode && next.pending == map[s.seqNo + 1 := t.now] && next.seqNo == s.seqNo + 1
            && next.jitter == NextJitter(s.jitter, s.prevRtt, s.prevSeq, s.havePrev, s.seqNo, Seconds(recv - sentAt))
            && next.prevRtt == Seconds(recv - sentAt) && next.prevSeq == s.seqNo && next.havePrev
            && Clock(next.log) == t.check && LostIn(next.log) == LostIn(s.log)
            && next.rttCount == s.rttCount + 1 && next.timedOut == s.timedOut
            && RttsIn(next.log) == RttsIn(s.log) + [recv - sentAt]
            && next.est == (if cfg.adaptive then Updated(s.est, Seconds(recv - sentAt)) else s.est)
  {
    var r := t.drained[0];
    assert Drain(cfg, s, t.drained) == Receive(cfg, s, r) by { assert t.drained[1..] == []; }
    OnlyEcho(cfg, s, r);
    SweepOfNothing(cfg, Receive(cfg, s, r), t.now, t.check, Timeout(cfg, s.est));
    assert Next(cfg, s, Tick(t)) == Register(DrainAndSweep(cfg, s, t), t.now);
  }

  lemma OnlyEcho(cfg: Config, s: State, r: Response)
    requires s.pending.Keys == {r.seqNo} && r.ts == ToWord(s.pending[r.seqNo])
    ensures var t := Receive(cfg, s, r);
            && t.pending == map[] && LostIn(t.log) == LostIn(s.log)
            && RttsIn(t.log) == RttsIn(s.log) + [r.recv - s.pending[r.seqNo]]
  {
  }

  lemma SweepOfNothing(cfg: Config, s: State, now: int, check: int, timeout: int)
    requires s.pending == map[]
    ensures var t := Sweep(cfg, s, now, check, timeout);
            && t.pending == map[] && t.timedOut == s.timedOut && t.est == s.est && Clock(t.log) == check
            && LostIn(t.log) == LostIn(s.log) && RttsIn(t.log) == RttsIn(s.log)
  {
    assert Overdue(map[], now, timeout) == {};
  }
}
