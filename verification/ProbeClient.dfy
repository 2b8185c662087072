/** internal/prober/client.go in its own form: an object whose fields the loop updates in place. Each
    method is proved to take the state where the corresponding function of ProbeLoop takes it. */
module ProbeClient {
  import opened Units
  import opened Wire
  import opened Estimator
  import opened ProbeLoop

  /** How a tick leaves the echo loop. */
  datatype Exit = Continues | Reconnecting | Recovered

  class Prober {
    const cfg: Config
    const stats: AdaptiveStats
    // probeLoopState
    var seqNo: nat
    var misses: nat
    var jitter: real
    var prevRtt: real
    var prevSeq: nat
    var havePrev: bool
    // locals of runEchoLoop
    const buf: array<Byte>
    var mode: Mode
    var pending: map<nat, int>
    var pendingHighWater: nat
    var writeFails: nat
    // targetMetrics
    var sent: nat
    var timedOut: int
    var rttCount: nat
    var inflight: int
    var linkUp: bool
    ghost var log: History

    ghost function View(): State
      reads this, stats
    {
      State(mode, seqNo, misses, jitter, prevRtt, prevSeq, havePrev, pending, writeFails,
            sent, timedOut, rttCount, inflight, linkUp, stats.View(), log)
    }

    ghost predicate Valid()
      reads this
    {
      buf.Length == PayloadSize(cfg.auth)
    }

    constructor (cfg: Config)
      ensures Valid() && this.cfg == cfg && View() == InitialState(cfg)
      ensures fresh(stats) && fresh(buf)
    {
      this.cfg := cfg;
      stats := new AdaptiveStats(cfg.baseTimeout);
      buf := new Byte[PayloadSize(cfg.auth)](i => 0);
      seqNo, misses, jitter, prevRtt, prevSeq, havePrev := 0, 0, 0.0, 0.0, 0, false;
      mode, pending, pendingHighWater, writeFails := Dialing, map[], 0, 0;
      sent, timedOut, rttCount, inflight, linkUp := 0, 0, 0, 0, false;
      log := Start;
    }

    method UpdateJitter(n: nat, rttSec: real)
      modifies this`jitter, this`prevRtt, this`prevSeq, this`havePrev
      ensures jitter == NextJitter(old(jitter), old(prevRtt), old(prevSeq), old(havePrev), n, rttSec)
      ensures prevRtt == rttSec && prevSeq == n && havePrev
    {
      if havePrev && n == prevSeq + 1 {
        jitter := jitter + (Abs(rttSec - prevRtt) - jitter) / 16.0;
      } else {
        jitter := 0.0;
      }
      prevRtt, prevSeq, havePrev := rttSec, n, true;
    }

    method Measure(rttSec: real)
      modifies stats
      ensures stats.View() == if cfg.adaptive then Updated(old(stats.View()), rttSec) else old(stats.View())
    {
      if cfg.adaptive {
        stats.Update(rttSec);
      }
    }

    /** delete(pending, n); inflight.Dec() */
    method Forget(n: nat)
      modifies this`pending, this`inflight
      ensures pending == old(pending) - {n} && inflight == old(inflight) - 1
    {
      pending := pending - {n};
      inflight := inflight - 1;
    }

    method Receive(r: Response)
      modifies this, stats
      ensures View() == ProbeLoop.Receive(cfg, old(View()), r)
    {
      if r.seqNo !in pending { return; }
      if r.ts != ToWord(pending[r.seqNo]) { return; }
      Accept(r);
    }

    method Accept(r: Response)
      requires Matches(pending, r)
      modifies this, stats
      ensures View() == ProbeLoop.Receive(cfg, old(View()), r)
    {
      var sentTime := pending[r.seqNo];
      CountMatch(r.seqNo);
      var rttSec := Seconds(r.recv - sentTime);
      UpdateJitter(r.seqNo, rttSec);
      Measure(rttSec);
      MarkUp();
      log := Then(log, Matched(r.seqNo, r.recv - sentTime));
    }

    method CountMatch(n: nat)
      modifies this`pending, this`inflight, this`rttCount
      ensures pending == old(pending) - {n} && inflight == old(inflight) - 1
      ensures rttCount == old(rttCount) + 1
    {
      Forget(n);
      rttCount := rttCount + 1;
    }

    method MarkUp()
      modifies this`misses, this`linkUp
      ensures misses == 0 && linkUp
    {
      misses := 0;
      linkUp := true;
    }

    /** Empties the response channel. */
    method Drain(responses: seq<Response>)
      modifies this, stats
      ensures View() == ProbeLoop.Drain(cfg, old(View()), responses)
    {
      var queue := responses;
      while queue != []
        invariant ProbeLoop.Drain(cfg, View(), queue) == ProbeLoop.Drain(cfg, old(View()), responses)
        decreases |queue|
      {
        var resp := queue[0];
        queue := queue[1..];
        Receive(resp);
      }
    }

    method CountLoss(n: nat)
      modifies this`pending, this`timedOut, this`inflight, this`misses
      ensures pending == old(pending) - {n} && inflight == old(inflight) - 1
      ensures timedOut == old(timedOut) + 1 && misses == old(misses) + 1
    {
      timedOut := timedOut + 1;
      Forget(n);
      misses := misses + 1;
    }

    /** Visits the pending map in any order, deleting while it iterates. */
    method RemoveOverdue(now: int, timeout: int) returns (timeoutOccurred: bool)
      modifies this`pending, this`timedOut, this`inflight, this`misses
      ensures var lost := Overdue(old(pending), now, timeout);
              && pending == old(pending) - lost
              && timedOut == old(timedOut) + |lost|
              && inflight == old(inflight) - |lost|
              && misses == old(misses) + |lost|
              && timeoutOccurred == (lost != {})
    {
      ghost var before := pending;
      ghost var lost: set<nat> := {};
      timeoutOccurred := false;
      var unvisited := pending.Keys;
      while unvisited != {}
        invariant Visited(before, now, timeout, unvisited, lost)
        invariant pending == before - lost
        invariant timeoutOccurred == (lost != {})
        invariant timedOut == old(timedOut) + |lost| && inflight == old(inflight) - |lost|
        invariant misses == old(misses) + |lost|
        decreases unvisited
      {
        var n :| n in unvisited;
        VisitOne(before, now, timeout, unvisited, lost, n);
        unvisited := unvisited - {n};
        if now - pending[n] > timeout {
          CountLoss(n);
          timeoutOccurred := true;
          lost := lost + {n};
        }
      }
    }

    /** Reallocates the map after a stall; what it holds stays the same. */
    method ShrinkPending()
      modifies this`pending, this`pendingHighWater
      ensures pending == old(pending)
    {
      if |pending| > pendingHighWater {
        pendingHighWater := |pending|;
      } else if |pending| == 0 && pendingHighWater > 512 {
        pending := map[];
        pendingHighWater := 0;
      }
    }

    method BackoffAfter(timeoutOccurred: bool)
      modifies stats
      ensures stats.View() == if cfg.adaptive && timeoutOccurred then BackedOff(old(stats.View())) else old(stats.View())
    {
      if timeoutOccurred && cfg.adaptive {
        stats.Backoff();
      }
    }

    method LinkDownAfterMisses()
      modifies this`linkUp
      ensures linkUp == (old(linkUp) && misses < LINK_UP_MISS_THRESHOLD)
    {
      if misses >= LINK_UP_MISS_THRESHOLD {
        linkUp := false;
      }
    }

    method Sweep(now: int, ghost check: int, timeout: int)
      modifies this, stats
      ensures View() == ProbeLoop.Sweep(cfg, old(View()), now, check, timeout)
    {
      ghost var overdue := Overdue(pending, now, timeout);
      var timeoutOccurred := RemoveOverdue(now, timeout);
      BackoffAfter(timeoutOccurred);
      ShrinkPending();
      LinkDownAfterMisses();
      log := Then(log, Swept(now, check, timeout, overdue));
    }

    /** The flush before a re-dial, probe by probe. */
    method FlushEach()
      modifies this`pending, this`timedOut, this`inflight
      ensures pending == map[]
      ensures timedOut == old(timedOut) + |old(pending)| && inflight == old(inflight) - |old(pending)|
    {
      while pending.Keys != {}
        invariant timedOut == old(timedOut) + |old(pending)| - |pending|
        invariant inflight == old(inflight) - |old(pending)| + |pending|
        decreases |pending|
      {
        var n :| n in pending.Keys;
        ghost var keys := pending.Keys;
        timedOut := timedOut + 1;
        Forget(n);
        assert keys == pending.Keys + {n};
      }
    }

    method FlushForReconnect()
      modifies this
      ensures View() == FlushPending(old(View()))
    {
      log := Then(log, Flushed(pending.Keys));
      FlushEach();
      mode := Dialing;
    }

    /** The deferred handler after a panic: what is pending counts as timed out and leaves the gauge. */
    method RecoverPanic()
      modifies this
      ensures View() == FlushPending(old(View()))
    {
      timedOut := timedOut + |pending|;
      if |pending| > 0 {
        inflight := inflight - |pending|;
      }
      log := Then(log, Flushed(pending.Keys));
      pending := map[];
      mode := Dialing;
    }

    method OnWriteError()
      modifies this`writeFails, this`linkUp, this`log
      ensures View() == FailWrite(old(View()))
    {
      writeFails := writeFails + 1;
      if writeFails == MAX_CONSECUTIVE_WRITE_FAILS {
        linkUp := false;
      }
      log := Then(log, WriteFailed);
    }

    method OnWritten(next: nat, now: int)
      requires next == seqNo + 1
      modifies this`writeFails, this`seqNo, this`pending, this`inflight, this`sent, this`log
      ensures View() == Register(old(View()), now)
    {
      writeFails := 0;
      seqNo := next;
      pending := pending[seqNo := now];
      inflight := inflight + 1;
      sent := sent + 1;
      log := Then(log, Sent(seqNo, now));
    }

    /** Send first, then register: the sequence number is consumed only by a successful write. */
    method Send(now: int, result: WriteResult) returns (written: seq<seq<Byte>>)
      requires Valid()
      modifies this, buf
      ensures View() == Write(old(View()), now, result)
      ensures written == if result.Ok? then [Encode(cfg.auth, Probe(ToWord(old(seqNo) + 1), ToWord(now)))] else []
    {
      var next := seqNo + 1;
      FillPayload(buf, cfg.auth, Probe(ToWord(next), ToWord(now)));
      written := [];
      match result
      case Panicked => RecoverPanic();
      case Failed => OnWriteError();
      case Ok =>
        written := [buf[..]];
        OnWritten(next, now);
    }

    method OnTick(t: TickInput) returns (exit: Exit, written: seq<seq<Byte>>)
      requires Valid() && mode.Probing?
      modifies this, stats, buf
      ensures View() == AfterTick(cfg, old(View()), old(mode).started, t)
      ensures exit == (if Reconnects(cfg, old(mode).started, t) then Reconnecting
                       else if t.write.Panicked? then Recovered else Continues)
      ensures written == Transmits(cfg, old(View()), Tick(t))
    {
      var started := mode.started;
      var timeout := cfg.baseTimeout;
      if cfg.adaptive {
        timeout := stats.CurrentRTO();
      }
      Drain(t.drained);
      Sweep(t.now, t.check, timeout);
      if t.check - started >= cfg.reconnectAfter {
        FlushForReconnect();
        return Reconnecting, [];
      }
      written := Send(t.now, t.write);
      exit := if t.write.Panicked? then Recovered else Continues;
    }

    /** The select saw ctx.Done: the deferred handler drops the in-flight probes from the gauge. */
    method OnCancel()
      modifies this
      ensures View() == AfterCancel(old(View()))
    {
      if mode.Probing? {
        if |pending| > 0 {
          inflight := inflight - |pending|;
        }
        log := Then(log, Abandoned(pending.Keys));
        pending := map[];
      }
      mode := Ended;
    }

    method OnDial(ok: bool, at: int)
      requires mode.Dialing?
      modifies this
      ensures View() == AfterDial(old(View()), ok, at)
    {
      if ok {
        mode, pending, pendingHighWater, writeFails := Probing(at), map[], 0, 0;
        log := Then(log, Dialed(at));
      } else {
        linkUp := false;
        log := Then(log, DialFailed(at));
      }
    }

    /** probeTarget outside a session: a dial returns, or the context is done. */
    method BetweenSessions(step: Step)
      requires mode.Dialing?
      modifies this
      ensures View() == Next(cfg, old(View()), step)
    {
      match step
      case Cancel => OnCancel();
      case Dial(ok, at) => OnDial(ok, at);
      case Tick(_) =>
    }

    /** One turn of the loop in runEchoLoop: the interval timer fires, or the context is done. */
    method Turn(step: Step) returns (written: seq<seq<Byte>>)
      requires Valid() && mode.Probing?
      modifies this, stats, buf
      ensures View() == Next(cfg, old(View()), step)
      ensures written == Transmits(cfg, old(View()), step)
    {
      written := [];
      match step
      case Cancel => OnCancel();
      case Tick(t) => var exit; exit, written := OnTick(t);
      case Dial(_, _) =>
    }

    /** One session, from the step at index i until the loop returns or the script is exhausted. */
    method RunEchoLoop(script: seq<Step>, i: nat, earlier: seq<seq<Byte>>) returns (j: nat, wire: seq<seq<Byte>>)
      requires Valid() && i <= |script|
      requires View() == Run(cfg, script[..i]) && earlier == WireOf(cfg, script[..i])
      modifies this, stats, buf
      ensures i <= j <= |script|
      ensures View() == Run(cfg, script[..j]) && wire == WireOf(cfg, script[..j])
      ensures mode.Probing? ==> j == |script|
      ensures old(mode).Probing? && i < |script| ==> i < j
    {
      j, wire := i, earlier;
      while j < |script| && mode.Probing?
        invariant i <= j <= |script|
        invariant View() == Run(cfg, script[..j]) && wire == WireOf(cfg, script[..j])
        invariant old(mode).Probing? && j == i ==> mode.Probing?
        decreases |script| - j
      {
        RunOneStep(cfg, script, j);
        var written := Turn(script[j]);
        wire := wire + written;
        j := j + 1;
      }
    }

    /** The life of one target: dial, retry after a failed dial, probe, and dial again after a re-dial
        request or a panic, until cancelled. */
    method ProbeTarget(script: seq<Step>) returns (wire: seq<seq<Byte>>)
      requires Valid() && View() == InitialState(cfg)
      modifies this, stats, buf
      ensures View() == Run(cfg, script) && wire == WireOf(cfg, script)
    {
      linkUp := false;
      wire := [];
      var i := 0;
      while i < |script| && !mode.Ended?
        invariant i <= |script|
        invariant View() == Run(cfg, script[..i]) && wire == WireOf(cfg, script[..i])
        decreases |script| - i
      {
        if mode.Probing? {
          i, wire := RunEchoLoop(script, i, wire);
        } else {
          RunOneStep(cfg, script, i);
          BetweenSessions(script[i]);
          i := i + 1;
        }
      }
      EndedIsFinal(cfg, script, i);
      assert script[..|script|] == script;
    }
  }

  /** The keys already visited have lost exactly their overdue probes. */
  ghost predicate Visited(before: map<nat, int>, now: int, timeout: int, unvisited: set<nat>, lost: set<nat>) {
    unvisited <= before.Keys && lost == Overdue(before, now, timeout) - unvisited
  }

  lemma VisitOne(before: map<nat, int>, now: int, timeout: int, unvisited: set<nat>, lost: set<nat>, n: nat)
    requires Visited(before, now, timeout, unvisited, lost) && n in unvisited
    ensures n in before - lost && (before - lost)[n] == before[n]
    ensures now - before[n] > timeout ==>
              && Visited(before, now, timeout, unvisited - {n}, lost + {n})
              && before - lost - {n} == before - (lost + {n})
              && |lost + {n}| == |lost| + 1
    ensures now - before[n] <= timeout ==> Visited(before, now, timeout, unvisited - {n}, lost)
  {
  }

  lemma RunOneStep(cfg: Config, script: seq<Step>, i: nat)
    requires i < |script|
    ensures Run(cfg, script[..i + 1]) == Next(cfg, Run(cfg, script[..i]), script[i])
    ensures WireOf(cfg, script[..i + 1]) == WireOf(cfg, script[..i]) + Transmits(cfg, Run(cfg, script[..i]), script[i])
    ensures !Run(cfg, script[..i]).mode.Probing? ==> WireOf(cfg, script[..i + 1]) == WireOf(cfg, script[..i])
  {
    assert script[..i + 1][..i] == script[..i];
  }

  /** Nothing happens after the target's goroutine has ended. */
  lemma {:induction false} EndedIsFinal(cfg: Config, script: seq<Step>, i: nat)
    requires i <= |script|
    requires i < |script| ==> Run(cfg, script[..i]).mode.Ended?
    ensures Run(cfg, script) == Run(cfg, script[..i]) && WireOf(cfg, script) == WireOf(cfg, script[..i])
    decreases |script| - i
  {
    if i < |script| {
      RunOneStep(cfg, script, i);
      EndedIsFinal(cfg, script, i + 1);
    } else {
      assert script[..i] == script;
    }
  }
}
