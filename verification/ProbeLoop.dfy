/** internal/prober/client.go: the probe loop of one target as a state machine. A step is what the
    environment lets happen: a dial, one tick of the interval timer, or cancellation. A tick drains the
    queued responses, sweeps overdue probes, may re-dial, and otherwise writes one probe. The history
    records what happened; the program does not keep it. */
module ProbeLoop {
  import opened Units
  import opened Wire
  import opened Estimator

  const LINK_UP_MISS_THRESHOLD: nat := 3
  const MAX_CONSECUTIVE_WRITE_FAILS: nat := 3

  datatype Config = Config(adaptive: bool, interval: int, baseTimeout: int, reconnectAfter: int, auth: Auth)

  /** Config.Validate. */
  predicate ValidConfig(cfg: Config) {
    cfg.interval > 0 && cfg.baseTimeout > 0
  }

  /** What the reader queues: the echoed sequence number and timestamp, and the time of receipt. */
  datatype Response = Response(seqNo: Word, ts: Word, recv: int)

  datatype WriteResult = Ok | Failed | Panicked

  /** One tick: the responses drained, the clock read after the drain, the clock read by the
      reconnect check, and what conn.Write does. */
  datatype TickInput = TickInput(drained: seq<Response>, now: int, check: int, write: WriteResult)

  datatype Step = Dial(ok: bool, at: int) | Tick(input: TickInput) | Cancel

  datatype Event =
    | Dialed(at: int)
    | DialFailed(at: int)
    | Matched(seqNo: nat, rtt: int)
    // the clock at the sweep and at the reconnect check that follows it
    | Swept(at: int, check: int, timeout: int, lost: set<nat>)
    | Sent(seqNo: nat, at: int)
    | WriteFailed
    | Flushed(seqNos: set<nat>)
    | Abandoned(seqNos: set<nat>)

  datatype History = Start | Then(past: History, event: Event)

  datatype Mode = Dialing | Probing(started: int) | Ended

  datatype State = State(
    mode: Mode,
    // probeLoopState, kept across sessions
    seqNo: nat, misses: nat, jitter: real, prevRtt: real, prevSeq: nat, havePrev: bool,
    // locals of one session
    pending: map<nat, int>, writeFails: nat,
    // the metrics
    sent: nat, timedOut: int, rttCount: nat, inflight: int, linkUp: bool,
    est: Estimate,
    log: History)

  function InitialState(cfg: Config): State {
    State(Dialing, 0, 0, 0.0, 0.0, 0, false, map[], 0, 0, 0, 0, 0, false, Initial(cfg.baseTimeout), Start)
  }

  // ----- One tick -----

  function Timeout(cfg: Config, e: Estimate): int {
    if cfg.adaptive then CurrentRto(e) else cfg.baseTimeout
  }

  /** A response resolves a probe only if it echoes that probe's own timestamp. */
  predicate Matches(pending: map<nat, int>, r: Response) {
    r.seqNo in pending && r.ts == ToWord(pending[r.seqNo])
  }

  /** One step of the jitter estimate of section 6.4.1 of RFC 3550. */
  function Smoothed(jitter: real, rtt: real, prevRtt: real): real {
    jitter + (Abs(rtt - prevRtt) - jitter) / 16.0
  }

  /** Any gap in the sequence numbers starts the estimate over. */
  function NextJitter(jitter: real, prevRtt: real, prevSeq: nat, havePrev: bool, n: nat, rtt: real): real {
    if havePrev && n == prevSeq + 1 then Smoothed(jitter, rtt, prevRtt) else 0.0
  }

  function Receive(cfg: Config, s: State, r: Response): State {
    if !Matches(s.pending, r) then s
    else
      var rtt := r.recv - s.pending[r.seqNo];
      s.(pending := s.pending - {r.seqNo}, inflight := s.inflight - 1, rttCount := s.rttCount + 1,
         jitter := NextJitter(s.jitter, s.prevRtt, s.prevSeq, s.havePrev, r.seqNo, Seconds(rtt)),
         prevRtt := Seconds(rtt), prevSeq := r.seqNo, havePrev := true,
         est := if cfg.adaptive then Updated(s.est, Seconds(rtt)) else s.est,
         misses := 0, linkUp := true, log := Then(s.log, Matched(r.seqNo, rtt)))
  }

  function Drain(cfg: Config, s: State, responses: seq<Response>): State
    decreases |responses|
  {
    if responses == [] then s else Drain(cfg, Receive(cfg, s, responses[0]), responses[1..])
  }

  function Overdue(pending: map<nat, int>, now: int, timeout: int): set<nat> {
    set n | n in pending && now - pending[n] > timeout
  }

  function Sweep(cfg: Config, s: State, now: int, check: int, timeout: int): State {
    var lost := Overdue(s.pending, now, timeout);
    var misses := s.misses + |lost|;
    s.(pending := s.pending - lost, timedOut := s.timedOut + |lost|, inflight := s.inflight - |lost|,
       misses := misses, linkUp := s.linkUp && misses < LINK_UP_MISS_THRESHOLD,
       est := if cfg.adaptive && lost != {} then BackedOff(s.est) else s.est,
       log := Then(s.log, Swept(now, check, timeout, lost)))
  }

  /** The end of a session by re-dial or by a recovered panic: what is pending counts as timed out. */
  function FlushPending(s: State): State {
    s.(mode := Dialing, pending := map[], timedOut := s.timedOut + |s.pending|,
       inflight := s.inflight - |s.pending|, log := Then(s.log, Flushed(s.pending.Keys)))
  }

  function FailWrite(s: State): State {
    s.(writeFails := s.writeFails + 1,
       linkUp := s.linkUp && s.writeFails + 1 != MAX_CONSECUTIVE_WRITE_FAILS,
       log := Then(s.log, WriteFailed))
  }

  function Register(s: State, now: int): State {
    var n := s.seqNo + 1;
    s.(writeFails := 0, seqNo := n, pending := s.pending[n := now], inflight := s.inflight + 1,
       sent := s.sent + 1, log := Then(s.log, Sent(n, now)))
  }

  function Write(s: State, now: int, result: WriteResult): State {
    match result
    case Ok => Register(s, now)
    case Failed => FailWrite(s)
    case Panicked => FlushPending(s)
  }

  predicate Reconnects(cfg: Config, started: int, t: TickInput) {
    t.check - started >= cfg.reconnectAfter
  }

  /** The state in which the tick decides between re-dialing and writing. */
  function DrainAndSweep(cfg: Config, s: State, t: TickInput): State {
    Sweep(cfg, Drain(cfg, s, t.drained), t.now, t.check, Timeout(cfg, s.est))
  }

  function AfterTick(cfg: Config, s: State, started: int, t: TickInput): State {
    var swept := DrainAndSweep(cfg, s, t);
    if Reconnects(cfg, started, t) then FlushPending(swept) else Write(swept, t.now, t.write)
  }

  // ----- Whole runs -----

  function AfterDial(s: State, ok: bool, at: int): State {
    if ok then s.(mode := Probing(at), pending := map[], writeFails := 0, log := Then(s.log, Dialed(at)))
    else s.(linkUp := false, log := Then(s.log, DialFailed(at)))
  }

  /** Cancellation: in-flight probes leave the gauge without counting as timeouts. */
  function AfterCancel(s: State): State {
    if s.mode.Probing? then
      s.(mode := Ended, pending := map[], inflight := s.inflight - |s.pending|,
         log := Then(s.log, Abandoned(s.pending.Keys)))
    else s.(mode := Ended)
  }

  /** A step that the current mode does not wait for changes nothing. */
  function Next(cfg: Config, s: State, step: Step): State {
    match step
    case Dial(ok, at) => if s.mode.Dialing? then AfterDial(s, ok, at) else s
    case Tick(t) => if s.mode.Probing? then AfterTick(cfg, s, s.mode.started, t) else s
    case Cancel => AfterCancel(s)
  }

  function RunFrom(cfg: Config, s: State, steps: seq<Step>): State {
    if steps == [] then s else Next(cfg, RunFrom(cfg, s, steps[..|steps| - 1]), steps[|steps| - 1])
  }

  function Run(cfg: Config, steps: seq<Step>): State {
    RunFrom(cfg, InitialState(cfg), steps)
  }

  lemma OneStepMore(cfg: Config, steps: seq<Step>, step: Step)
    ensures Run(cfg, steps + [step]) == Next(cfg, Run(cfg, steps), step)
  {
    assert (steps + [step])[..|steps|] == steps;
  }

  lemma OneMoreFrom(cfg: Config, s: State, steps: seq<Step>, i: nat)
    requires i < |steps|
    ensures RunFrom(cfg, s, steps[..i + 1]) == Next(cfg, RunFrom(cfg, s, steps[..i]), steps[i])
  {
    assert steps[..i + 1][..i] == steps[..i];
  }

  lemma {:induction false} RunOn(cfg: Config, steps: seq<Step>, more: seq<Step>)
    ensures Run(cfg, steps + more) == RunFrom(cfg, Run(cfg, steps), more)
  {
    if more == [] {
      assert steps + more == steps;
    } else {
      var n := |more| - 1;
      RunOn(cfg, steps, more[..n]);
      assert steps + more == (steps + more[..n]) + [more[n]];
      OneStepMore(cfg, steps + more[..n], more[n]);
    }
  }

  /** The datagram a step puts on the wire, if any: only a successful write does. */
  function Transmits(cfg: Config, s: State, step: Step): seq<seq<Byte>> {
    if step.Tick? && s.mode.Probing? && !Reconnects(cfg, s.mode.started, step.input) && step.input.write.Ok?
    then [Encode(cfg.auth, Probe(ToWord(DrainAndSweep(cfg, s, step.input).seqNo + 1), ToWord(step.input.now)))]
    else []
  }

  /** The datagrams a run puts on the wire, in order. */
  function WireOf(cfg: Config, steps: seq<Step>): seq<seq<Byte>> {
    if steps == [] then []
    else
      var before := steps[..|steps| - 1];
      WireOf(cfg, before) + Transmits(cfg, Run(cfg, before), steps[|steps| - 1])
  }

  // ----- What the history says -----

  function MatchedIn(h: History): set<nat> {
    match h
    case Start => {}
    case Then(past, e) => if e.Matched? then MatchedIn(past) + {e.seqNo} else MatchedIn(past)
  }

  /** Counted as timed out by a sweep: lost on the wire. */
  function LostIn(h: History): set<nat> {
    match h
    case Start => {}
    case Then(past, e) => if e.Swept? then LostIn(past) + e.lost else LostIn(past)
  }

  /** Counted as timed out because the session ended under them. */
  function FlushedIn(h: History): set<nat> {
    match h
    case Start => {}
    case Then(past, e) => if e.Flushed? then FlushedIn(past) + e.seqNos else FlushedIn(past)
  }

  function AbandonedIn(h: History): set<nat> {
    match h
    case Start => {}
    case Then(past, e) => if e.Abandoned? then AbandonedIn(past) + e.seqNos else AbandonedIn(past)
  }

  /** When each probe was put on the wire. */
  function SentIn(h: History): map<nat, int> {
    match h
    case Start => map[]
    case Then(past, e) => if e.Sent? then SentIn(past)[e.seqNo := e.at] else SentIn(past)
  }
}
