/** The client, the network and the echo server together. The network drops, delays and reorders
    datagrams in both directions, may duplicate them, and forges none; other hosts may send the server
    anything. */
module LinkSystem {
  import opened Units
  import opened Wire
  import opened RateLimiter
  import opened EchoServer
  import opened ProbeLoop
  import opened Conservation

  datatype World = World(cfg: Config, settings: Settings, clientIp: string)

  /** up holds the client's datagrams in transit, everUp all it has ever sent. What the server sends
      back stays available in its replies, to be delivered at any time, in any order, any number of
      times or never. */
  datatype System = System(client: State, server: Server, up: multiset<seq<Byte>>, everUp: set<seq<Byte>>)

  datatype Move =
    | ClientStep(step: Step)
    | Deliver(arrival: Arrival, duplicate: bool)
    | Drop(frame: seq<Byte>)
    | Foreign(arrival: Arrival)

  function Initially(w: World): System {
    System(InitialState(w.cfg), STARTED, multiset{}, {})
  }

  function React(w: World, sys: System, move: Move): System {
    match move
    case ClientStep(step) =>
      var sent := Transmits(w.cfg, sys.client, step);
      System(Next(w.cfg, sys.client, step), sys.server,
             sys.up + multiset(sent), sys.everUp + (set f | f in sent))
    case Deliver(a, duplicate) =>
      sys.(server := Serve(w.settings, sys.server, a),
           up := if duplicate then sys.up else sys.up - multiset{a.bytes})
    case Drop(frame) => sys.(up := sys.up - multiset{frame})
    case Foreign(a) => sys.(server := Serve(w.settings, sys.server, a))
  }

  /** A reply to the client whose contents are this response's. */
  ghost predicate Delivered(w: World, s: Server, r: Response) {
    exists i :: 0 <= i < |s.replies| && s.replies[i].to == w.clientIp
                && Decode(w.cfg.auth, s.replies[i].bytes) == Some(Probe(r.seqNo, r.ts))
  }

  /** No forging: the client drains only echoes of the server, and the server receives from the
      client's address only what the client sent. */
  ghost predicate Honest(w: World, sys: System, move: Move) {
    match move
    case ClientStep(step) => step.Tick? ==> forall r :: r in step.input.drained ==> Delivered(w, sys.server, r)
    case Deliver(a, duplicate) => a.from == w.clientIp && (if duplicate then a.bytes in sys.everUp else a.bytes in sys.up)
    case Drop(frame) => frame in sys.up
    case Foreign(a) => a.from != w.clientIp
  }

  function RunSystem(w: World, moves: seq<Move>): System {
    if moves == [] then Initially(w) else React(w, RunSystem(w, moves[..|moves| - 1]), moves[|moves| - 1])
  }

  ghost predicate HonestRun(w: World, moves: seq<Move>) {
    moves == [] ||
    var n := |moves| - 1;
    HonestRun(w, moves[..n]) && Honest(w, RunSystem(w, moves[..n]), moves[n])
  }

  ghost predicate NoDuplicates(moves: seq<Move>) {
    forall i :: 0 <= i < |moves| && moves[i].Deliver? ==> !moves[i].duplicate
  }

  // ----- What was sent, echoed and matched -----

  /** The datagram of probe n, with the timestamp at which it was sent. */
  function FrameOf(auth: Auth, sentAt: map<nat, int>, n: nat): seq<Byte>
    requires n in sentAt
  {
    Encode(auth, Probe(ToWord(n), ToWord(sentAt[n])))
  }

  lemma FrameDecodes(auth: Auth, sentAt: map<nat, int>, n: nat)
    requires n in sentAt && n < 0x1_0000_0000_0000_0000
    ensures Decode(auth, FrameOf(auth, sentAt, n)).Some?
    ensures Decode(auth, FrameOf(auth, sentAt, n)).value.seqNum == n
    ensures Decode(auth, FrameOf(auth, sentAt, n)).value.ts == ToWord(sentAt[n])
  {
    DecodeEncode(auth, Probe(ToWord(n), ToWord(sentAt[n])));
  }

  ghost predicate IsFrame(auth: Auth, sentAt: map<nat, int>, f: seq<Byte>, n: nat) {
    n in sentAt && f == FrameOf(auth, sentAt, n)
  }

  ghost predicate AreFrames(auth: Auth, sentAt: map<nat, int>, frames: set<seq<Byte>>) {
    forall f :: f in frames ==> exists n :: IsFrame(auth, sentAt, f, n)
  }

  /** The contents of the replies addressed to the client. */
  function EchoedTo(replies: seq<Reply>, ip: string): set<seq<Byte>> {
    if replies == [] then {}
    else
      var last := replies[|replies| - 1];
      EchoedTo(replies[..|replies| - 1], ip) + (if last.to == ip then {last.bytes} else {})
  }

  ghost predicate MatchedWereEchoed(auth: Auth, h: History, echoed: set<seq<Byte>>) {
    forall n :: n in MatchedIn(h) ==> n in SentIn(h) && FrameOf(auth, SentIn(h), n) in echoed
  }

  ghost predicate Echoed(auth: Auth, echoed: set<seq<Byte>>, r: Response) {
    exists f :: f in echoed && Decode(auth, f) == Some(Probe(r.seqNo, r.ts))
  }

  /** Whatever was sent to the server is a frame of a probe sent, whatever was echoed was sent, and
      whatever was matched was echoed. */
  ghost predicate Unforged(auth: Auth, h: History, up: multiset<seq<Byte>>, everUp: set<seq<Byte>>, echoed: set<seq<Byte>>) {
    && (forall f :: f in up ==> f in everUp)
    && AreFrames(auth, SentIn(h), everUp)
    && echoed <= everUp
    && MatchedWereEchoed(auth, h, echoed)
  }

  ghost predicate NothingForged(w: World, sys: System) {
    && Consistent(sys.client)
    && Unforged(w.cfg.auth, sys.client.log, sys.up, sys.everUp, EchoedTo(sys.server.replies, w.clientIp))
  }

  // ----- The client -----

  /** A response that decodes a frame of the client names the probe the frame was sent for. */
  lemma ResponseNamesFrame(auth: Auth, sentAt: map<nat, int>, echoed: set<seq<Byte>>, r: Response)
    requires AreFrames(auth, sentAt, echoed) && Echoed(auth, echoed, r)
    requires forall n :: n in sentAt ==> n < 0x1_0000_0000_0000_0000
    ensures r.seqNo in sentAt && FrameOf(auth, sentAt, r.seqNo) in echoed
  {
    var f :| f in echoed && Decode(auth, f) == Some(Probe(r.seqNo, r.ts));
    var m :| IsFrame(auth, sentAt, f, m);
    FrameDecodes(auth, sentAt, m);
  }

  lemma ReceiveEchoed(cfg: Config, s: State, r: Response, echoed: set<seq<Byte>>)
    requires forall n :: n in SentIn(s.log) ==> n < 0x1_0000_0000_0000_0000
    requires AreFrames(cfg.auth, SentIn(s.log), echoed) && MatchedWereEchoed(cfg.auth, s.log, echoed)
    requires Echoed(cfg.auth, echoed, r)
    ensures MatchedWereEchoed(cfg.auth, Receive(cfg, s, r).log, echoed)
    ensures SentIn(Receive(cfg, s, r).log) == SentIn(s.log)
  {
    ResponseNamesFrame(cfg.auth, SentIn(s.log), echoed, r);
    if Matches(s.pending, r) {
      assert MatchedIn(Receive(cfg, s, r).log) == MatchedIn(s.log) + {r.seqNo};
    }
  }

  lemma {:induction false} DrainEchoed(cfg: Config, s: State, responses: seq<Response>, echoed: set<seq<Byte>>)
    requires Consistent(s) && s.mode.Probing? && s.seqNo < 0x1_0000_0000_0000_0000
    requires AreFrames(cfg.auth, SentIn(s.log), echoed) && MatchedWereEchoed(cfg.auth, s.log, echoed)
    requires forall r :: r in responses ==> Echoed(cfg.auth, echoed, r)
    ensures MatchedWereEchoed(cfg.auth, Drain(cfg, s, responses).log, echoed)
    ensures SentIn(Drain(cfg, s, responses).log) == SentIn(s.log)
    decreases |responses|
  {
    if responses == [] {
    } else {
      var r := responses[0];
      assert r in responses;
      ReceiveEchoed(cfg, s, r, echoed);
      ReceiveKeeps(cfg, s, r);
      DrainEchoed(cfg, Receive(cfg, s, r), responses[1..], echoed);
    }
  }

  /** What the history gains after the drain: nothing but the probe just sent. */
  ghost predicate GainsOnly(s: State, t: State, sent: bool, now: int) {
    && MatchedIn(t.log) == MatchedIn(s.log)
    && t.seqNo == s.seqNo + One(sent) && t.sent == s.sent + One(sent)
    && SentIn(t.log) == if sent then SentIn(s.log)[s.seqNo + 1 := now] else SentIn(s.log)
  }

  lemma SweepGainsNothing(cfg: Config, s: State, now: int, check: int, timeout: int)
    ensures GainsOnly(s, Sweep(cfg, s, now, check, timeout), false, now)
  {
  }

  lemma FlushGainsNothing(s: State, now: int)
    ensures GainsOnly(s, FlushPending(s), false, now)
  {
  }

  lemma WriteGains(s: State, now: int, result: WriteResult)
    ensures GainsOnly(s, Write(s, now, result), result.Ok?, now)
  {
  }

  lemma GainsAddUp(s: State, mid: State, t: State, sent: bool, now: int)
    requires GainsOnly(s, mid, false, now) && GainsOnly(mid, t, sent, now)
    ensures GainsOnly(s, t, sent, now)
  {
  }

  lemma TickAfterDrain(cfg: Config, s: State, started: int, t: TickInput)
    ensures var drained := Drain(cfg, s, t.drained);
            GainsOnly(drained, AfterTick(cfg, s, started, t), !Reconnects(cfg, started, t) && t.write.Ok?, t.now)
  {
    var drained, swept := Drain(cfg, s, t.drained), DrainAndSweep(cfg, s, t);
    SweepGainsNothing(cfg, drained, t.now, t.check, Timeout(cfg, s.est));
    if Reconnects(cfg, started, t) {
      FlushGainsNothing(swept, t.now);
      GainsAddUp(drained, swept, FlushPending(swept), false, t.now);
    } else {
      WriteGains(swept, t.now, t.write);
      GainsAddUp(drained, swept, Write(swept, t.now, t.write), t.write.Ok?, t.now);
    }
  }

  lemma {:induction false} DrainSendsNothing(cfg: Config, s: State, responses: seq<Response>)
    ensures Drain(cfg, s, responses).seqNo == s.seqNo && Drain(cfg, s, responses).sent == s.sent
    ensures SentIn(Drain(cfg, s, responses).log) == SentIn(s.log)
    decreases |responses|
  {
    if responses == [] {
    } else {
      DrainSendsNothing(cfg, Receive(cfg, s, responses[0]), responses[1..]);
    }
  }

  lemma {:induction false} DeliveredIsEchoed(auth: Auth, replies: seq<Reply>, ip: string, r: Response, i: nat)
    requires i < |replies| && replies[i].to == ip && Decode(auth, replies[i].bytes) == Some(Probe(r.seqNo, r.ts))
    ensures Echoed(auth, EchoedTo(replies, ip), r)
  {
    var n := |replies| - 1;
    if i < n {
      DeliveredIsEchoed(auth, replies[..n], ip, r, i);
      var f :| f in EchoedTo(replies[..n], ip) && Decode(auth, f) == Some(Probe(r.seqNo, r.ts));
      assert f in EchoedTo(replies, ip);
    } else {
      assert replies[n].bytes in EchoedTo(replies, ip);
    }
  }

  lemma HonestResponsesAreEchoes(w: World, server: Server, responses: seq<Response>)
    requires forall r :: r in responses ==> Delivered(w, server, r)
    ensures forall r :: r in responses ==> Echoed(w.cfg.auth, EchoedTo(server.replies, w.clientIp), r)
  {
    forall r | r in responses ensures Echoed(w.cfg.auth, EchoedTo(server.replies, w.clientIp), r) {
      assert Delivered(w, server, r);
      var i :| 0 <= i < |server.replies| && server.replies[i].to == w.clientIp
               && Decode(w.cfg.auth, server.replies[i].bytes) == Some(Probe(r.seqNo, r.ts));
      DeliveredIsEchoed(w.cfg.auth, server.replies, w.clientIp, r, i);
    }
  }

  lemma ClientKeeps(w: World, sys: System, step: Step)
    requires NothingForged(w, sys) && Honest(w, sys, ClientStep(step))
    requires sys.client.seqNo < 0x1_0000_0000_0000_0000
    ensures NothingForged(w, React(w, sys, ClientStep(step)))
  {
    var s := sys.client;
    NextKeeps(w.cfg, s, step);
    if step.Tick? && s.mode.Probing? {
      ProbingTickKeeps(w, sys, step.input);
    } else {
      IdleKeepsFrames(w, sys, step);
    }
  }

  lemma ProbingTickKeeps(w: World, sys: System, t: TickInput)
    requires NothingForged(w, sys) && Honest(w, sys, ClientStep(Tick(t))) && sys.client.mode.Probing?
    requires sys.client.seqNo < 0x1_0000_0000_0000_0000
    ensures var after := React(w, sys, ClientStep(Tick(t)));
            Unforged(w.cfg.auth, after.client.log, after.up, after.everUp, EchoedTo(after.server.replies, w.clientIp))
  {
    var s, echoed := sys.client, EchoedTo(sys.server.replies, w.clientIp);
    HonestResponsesAreEchoes(w, sys.server, t.drained);
    DrainEchoed(w.cfg, s, t.drained, echoed);
    TickHistory(w.cfg, s, t);
    SendKeeps(w.cfg.auth, s.log, Drain(w.cfg, s, t.drained).log, AfterTick(w.cfg, s, s.mode.started, t).log,
              sys.up, sys.everUp, echoed, Transmits(w.cfg, s, Tick(t)), s.seqNo + 1);
  }

  lemma IdleGainsNothing(cfg: Config, s: State, step: Step)
    requires !(step.Tick? && s.mode.Probing?)
    ensures var next := Next(cfg, s, step);
            MatchedIn(next.log) == MatchedIn(s.log) && SentIn(next.log) == SentIn(s.log) && next.sent == s.sent
    ensures Transmits(cfg, s, step) == []
  {
  }

  lemma IdleKeepsFrames(w: World, sys: System, step: Step)
    requires NothingForged(w, sys) && Consistent(Next(w.cfg, sys.client, step))
    requires !(step.Tick? && sys.client.mode.Probing?)
    ensures NothingForged(w, React(w, sys, ClientStep(step)))
  {
    IdleGainsNothing(w.cfg, sys.client, step);
    var after := React(w, sys, ClientStep(step));
    assert after.everUp == sys.everUp && after.up == sys.up;
  }

  ghost predicate Extends(before: map<nat, int>, after: map<nat, int>) {
    forall n :: n in before ==> n in after && after[n] == before[n]
  }

  /** The datagram a tick transmits is the frame of the probe it registers. */
  lemma TransmitsNewFrame(cfg: Config, s: State, t: TickInput)
    requires s.mode.Probing? && s.seqNo + 1 !in SentIn(s.log)
    requires var sends := !Reconnects(cfg, s.mode.started, t) && t.write.Ok?;
             SentIn(AfterTick(cfg, s, s.mode.started, t).log)
             == if sends then SentIn(s.log)[s.seqNo + 1 := t.now] else SentIn(s.log)
    ensures var sentAfter := SentIn(AfterTick(cfg, s, s.mode.started, t).log);
            && Extends(SentIn(s.log), sentAfter)
            && forall f :: f in Transmits(cfg, s, Tick(t)) ==> IsFrame(cfg.auth, sentAfter, f, s.seqNo + 1)
  {
    DrainSendsNothing(cfg, s, t.drained);
  }

  lemma TickHistory(cfg: Config, s: State, t: TickInput)
    requires s.mode.Probing? && s.seqNo + 1 !in SentIn(s.log)
    requires SentIn(Drain(cfg, s, t.drained).log) == SentIn(s.log)
    ensures var next := AfterTick(cfg, s, s.mode.started, t);
            && MatchedIn(next.log) == MatchedIn(Drain(cfg, s, t.drained).log)
            && Extends(SentIn(s.log), SentIn(next.log))
            && forall f :: f in Transmits(cfg, s, Tick(t)) ==> IsFrame(cfg.auth, SentIn(next.log), f, s.seqNo + 1)
  {
    TickAfterDrain(cfg, s, s.mode.started, t);
    DrainSendsNothing(cfg, s, t.drained);
    TransmitsNewFrame(cfg, s, t);
  }

  lemma MatchedStayEchoed(auth: Auth, before: History, after: History, echoed: set<seq<Byte>>)
    requires MatchedIn(after) == MatchedIn(before) && Extends(SentIn(before), SentIn(after))
    requires MatchedWereEchoed(auth, before, echoed)
    ensures MatchedWereEchoed(auth, after, echoed)
  {
  }

  lemma SendKeeps(auth: Auth, h: History, drained: History, next: History, up: multiset<seq<Byte>>,
                  everUp: set<seq<Byte>>, echoed: set<seq<Byte>>, sent: seq<seq<Byte>>, n: nat)
    requires Unforged(auth, h, up, everUp, echoed)
    requires MatchedWereEchoed(auth, drained, echoed) && SentIn(drained) == SentIn(h)
    requires MatchedIn(next) == MatchedIn(drained) && Extends(SentIn(h), SentIn(next))
    requires forall f :: f in sent ==> IsFrame(auth, SentIn(next), f, n)
    ensures Unforged(auth, next, up + multiset(sent), everUp + (set f | f in sent), echoed)
  {
    FramesStayFrames(auth, SentIn(h), SentIn(next), everUp);
    MatchedStayEchoed(auth, drained, next, echoed);
  }

  lemma FramesStayFrames(auth: Auth, before: map<nat, int>, after: map<nat, int>, frames: set<seq<Byte>>)
    requires Extends(before, after)
    requires AreFrames(auth, before, frames)
    ensures AreFrames(auth, after, frames)
  {
    forall f | f in frames ensures exists n :: IsFrame(auth, after, f, n) {
      var n :| IsFrame(auth, before, f, n);
      assert IsFrame(auth, after, f, n);
    }
  }

  // ----- The network and the server -----

  lemma OneMoreEcho(replies: seq<Reply>, r: Reply, ip: string)
    ensures EchoedTo(replies + [r], ip) == EchoedTo(replies, ip) + (if r.to == ip then {r.bytes} else {})
    ensures RepliesTo(replies + [r], ip) == RepliesTo(replies, ip) + (if r.to == ip then 1 else 0)
  {
    assert (replies + [r])[..|replies|] == replies;
  }

  /** Serving one datagram answers it with at most one reply, which is the datagram itself. */
  lemma ServeEchoes(settings: Settings, s: Server, a: Arrival, ip: string)
    ensures var next := Serve(settings, s, a);
            && EchoedTo(s.replies, ip) <= EchoedTo(next.replies, ip)
            && EchoedTo(next.replies, ip) <= EchoedTo(s.replies, ip) + (if a.from == ip then {a.bytes} else {})
            && RepliesTo(next.replies, ip) <= RepliesTo(s.replies, ip) + (if a.from == ip then 1 else 0)
  {
    var next, r := Serve(settings, s, a), Reply(a.from, a.bytes, a.at);
    assert next.replies == s.replies || next.replies == s.replies + [r];
    OneMoreEcho(s.replies, r, ip);
  }

  lemma ServerKeeps(w: World, sys: System, move: Move)
    requires NothingForged(w, sys) && Honest(w, sys, move) && !move.ClientStep?
    ensures NothingForged(w, React(w, sys, move))
  {
    match move
    case Deliver(a, _) => ServeEchoes(w.settings, sys.server, a, w.clientIp);
    case Foreign(a) => ServeEchoes(w.settings, sys.server, a, w.clientIp);
    case Drop(_) =>
  }

  // ----- Main results -----

  lemma SequenceGrows(w: World, sys: System, move: Move)
    ensures React(w, sys, move).client.seqNo >= sys.client.seqNo
  {
    if move.ClientStep? && move.step.Tick? && sys.client.mode.Probing? {
      TickAfterDrain(w.cfg, sys.client, sys.client.mode.started, move.step.input);
      DrainSendsNothing(w.cfg, sys.client, move.step.input.drained);
    }
  }

  /** In every reachable state, every matched probe was put on the wire by the client, and the very
      datagram it was sent in was echoed by the server, however datagrams are dropped, delayed,
      reordered and duplicated. */
  lemma {:induction false} MatchedWereSentAndEchoed(w: World, moves: seq<Move>)
    requires HonestRun(w, moves) && RunSystem(w, moves).client.seqNo < 0x1_0000_0000_0000_0000
    ensures NothingForged(w, RunSystem(w, moves))
  {
    if moves == [] {
      ExactlyOnce(w.cfg, []);
    } else {
      var n := |moves| - 1;
      SequenceGrows(w, RunSystem(w, moves[..n]), moves[n]);
      MatchedWereSentAndEchoed(w, moves[..n]);
      var before := RunSystem(w, moves[..n]);
      if moves[n].ClientStep? { ClientKeeps(w, before, moves[n].step); }
      else { ServerKeeps(w, before, moves[n]); }
    }
  }

  ghost predicate Conserved(w: World, sys: System) {
    && Count(sys.server.received, w.clientIp) == RepliesTo(sys.server.replies, w.clientIp)
    && RepliesTo(sys.server.replies, w.clientIp) + |sys.up| <= sys.client.sent
  }

  lemma TransmitsCounted(cfg: Config, s: State, step: Step)
    ensures Next(cfg, s, step).sent == s.sent + |Transmits(cfg, s, step)|
  {
    if step.Tick? && s.mode.Probing? {
      var t := step.input;
      TickAfterDrain(cfg, s, s.mode.started, t);
      DrainSendsNothing(cfg, s, t.drained);
    } else {
      IdleGainsNothing(cfg, s, step);
    }
  }

  lemma NextFrames(cfg: Config, s: State, step: Step)
    requires Consistent(s)
    ensures var next := Next(cfg, s, step);
            && Extends(SentIn(s.log), SentIn(next.log))
            && |Transmits(cfg, s, step)| <= 1
            && forall f :: f in Transmits(cfg, s, step) ==> IsFrame(cfg.auth, SentIn(next.log), f, s.seqNo + 1)
  {
    if step.Tick? && s.mode.Probing? {
      DrainSendsNothing(cfg, s, step.input.drained);
      TickHistory(cfg, s, step.input);
    } else {
      IdleGainsNothing(cfg, s, step);
    }
  }

  /** The datagrams are the frames of probes 1, 2, 3, ... in order. */
  ghost predicate Numbered(auth: Auth, sentAt: map<nat, int>, wire: seq<seq<Byte>>) {
    forall k :: 0 <= k < |wire| ==> IsFrame(auth, sentAt, wire[k], k + 1)
  }

  lemma OneMoreNumbered(auth: Auth, before: map<nat, int>, after: map<nat, int>, wire: seq<seq<Byte>>, more: seq<seq<Byte>>)
    requires Numbered(auth, before, wire) && Extends(before, after)
    requires |more| <= 1 && forall f :: f in more ==> IsFrame(auth, after, f, |wire| + 1)
    ensures Numbered(auth, after, wire + more)
  {
    forall k | 0 <= k < |wire + more| ensures IsFrame(auth, after, (wire + more)[k], k + 1) {
      if k < |wire| { assert IsFrame(auth, before, wire[k], k + 1); }
      else { assert (wire + more)[k] == more[0] && more[0] in more; }
    }
  }

  /** The datagrams of a run carry the sequence numbers 1, 2, 3, ... without gaps or repeats, each with
      its own send time: failed and panicking writes burn no number. */
  lemma {:induction false} WireHasNoGaps(cfg: Config, steps: seq<Step>)
    ensures var s, wire := Run(cfg, steps), WireOf(cfg, steps);
            |wire| == s.sent && Numbered(cfg.auth, SentIn(s.log), wire)
  {
    if steps == [] {
    } else {
      var n := |steps| - 1;
      var before := Run(cfg, steps[..n]);
      WireHasNoGaps(cfg, steps[..n]);
      ExactlyOnce(cfg, steps[..n]);
      TransmitsCounted(cfg, before, steps[n]);
      NextFrames(cfg, before, steps[n]);
      OneMoreNumbered(cfg.auth, SentIn(before.log), SentIn(Run(cfg, steps).log), WireOf(cfg, steps[..n]),
                      Transmits(cfg, before, steps[n]));
    }
  }

  lemma ReactConserves(w: World, sys: System, move: Move)
    requires Conserved(w, sys) && Honest(w, sys, move) && (move.Deliver? ==> !move.duplicate)
    ensures Conserved(w, React(w, sys, move))
  {
    match move
    case ClientStep(step) => TransmitsCounted(w.cfg, sys.client, step);
    case Deliver(a, _) =>
      ServeEchoes(w.settings, sys.server, a, w.clientIp);
      AtMostOneReply(w.settings, sys.server, a, w.clientIp);
    case Foreign(a) =>
      ServeEchoes(w.settings, sys.server, a, w.clientIp);
      AtMostOneReply(w.settings, sys.server, a, w.clientIp);
    case Drop(_) =>
  }

  lemma {:induction false} RunConserves(w: World, moves: seq<Move>)
    requires HonestRun(w, moves) && NoDuplicates(moves)
    ensures Conserved(w, RunSystem(w, moves))
  {
    if moves == [] {
    } else {
      var n := |moves| - 1;
      assert forall i :: 0 <= i < n ==> moves[..n][i] == moves[i];
      RunConserves(w, moves[..n]);
      ReactConserves(w, RunSystem(w, moves[..n]), moves[n]);
    }
  }

  lemma {:induction false} FewerEchoesThanReplies(replies: seq<Reply>, ip: string)
    ensures |EchoedTo(replies, ip)| <= RepliesTo(replies, ip)
  {
    if replies == [] {
    } else {
      FewerEchoesThanReplies(replies[..|replies| - 1], ip);
    }
  }

  /** Distinct probes are sent in distinct datagrams. */
  lemma FramesDiffer(auth: Auth, sentAt: map<nat, int>, m: nat, n: nat)
    requires m in sentAt && n in sentAt && m != n
    requires m < 0x1_0000_0000_0000_0000 && n < 0x1_0000_0000_0000_0000
    ensures FrameOf(auth, sentAt, m) != FrameOf(auth, sentAt, n)
  {
    FrameDecodes(auth, sentAt, m);
    FrameDecodes(auth, sentAt, n);
  }

  lemma {:induction false} FewerProbesThanFrames(auth: Auth, sentAt: map<nat, int>, probes: set<nat>, frames: set<seq<Byte>>)
    requires forall n :: n in sentAt ==> n < 0x1_0000_0000_0000_0000
    requires forall n :: n in probes ==> n in sentAt && FrameOf(auth, sentAt, n) in frames
    ensures |probes| <= |frames|
    decreases |probes|
  {
    if probes == {} {
    } else {
      var n :| n in probes;
      var f := FrameOf(auth, sentAt, n);
      forall m | m in probes - {n} ensures FrameOf(auth, sentAt, m) in frames - {f} {
        FramesDiffer(auth, sentAt, m, n);
      }
      FewerProbesThanFrames(auth, sentAt, probes - {n}, frames - {f});
    }
  }

  /** If the network does not duplicate on the way to the server, then in every reachable state
      rtt_count <= server_received <= sent, for the counter of the client's address. */
  lemma CountersAreOrdered(w: World, moves: seq<Move>)
    requires HonestRun(w, moves) && NoDuplicates(moves)
    requires RunSystem(w, moves).client.seqNo < 0x1_0000_0000_0000_0000
    ensures var sys := RunSystem(w, moves);
            sys.client.rttCount <= Count(sys.server.received, w.clientIp) <= sys.client.sent
  {
    var sys := RunSystem(w, moves);
    MatchedWereSentAndEchoed(w, moves);
    RunConserves(w, moves);
    FewerEchoesThanReplies(sys.server.replies, w.clientIp);
    FewerProbesThanFrames(w.cfg.auth, SentIn(sys.client.log), MatchedIn(sys.client.log),
                          EchoedTo(sys.server.replies, w.clientIp));
  }

  /** An unmodified echo is accepted at both ends: the server answers the datagram of a pending probe
      with the same bytes whenever the source is allowlisted, the limiter admits it and the timestamp
      is fresh, and the client matches that answer to the probe. */
  lemma UnmodifiedEchoMatches(w: World, steps: seq<Step>, n: nat, server: Server,
                                                 at: int, wall: int, recv: int)
    requires w.settings.auth == w.cfg.auth && w.clientIp in w.settings.allowed
    requires n in Run(w.cfg, steps).pending && Run(w.cfg, steps).seqNo < 0x1_0000_0000_0000_0000
    requires Admits(w.settings.caps, server.trace, at, w.clientIp)
    requires Fresh(w.settings.auth, ToWord(Run(w.cfg, steps).pending[n]), wall)
    ensures var s := Run(w.cfg, steps);
            && n in SentIn(s.log)
            && var frame := FrameOf(w.cfg.auth, SentIn(s.log), n);
               && Serve(w.settings, server, Arrival(frame, w.clientIp, at, wall)).replies
                  == server.replies + [Reply(w.clientIp, frame, at)]
               && Decode(w.cfg.auth, frame).Some?
               && var p := Decode(w.cfg.auth, frame).value;
                  Matches(s.pending, Response(p.seqNum, p.ts, recv)) && p.seqNum == n
  {
    var s := Run(w.cfg, steps);
    ExactlyOnce(w.cfg, steps);
    FrameDecodes(w.cfg.auth, SentIn(s.log), n);
  }
}
