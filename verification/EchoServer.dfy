/** internal/prober/server.go: the echo loop. Every datagram passes the allowlist, then the rate
    limiter, then the size, magic, tag and freshness checks; what passes is counted and echoed. */
module EchoServer {
  import opened Units
  import opened Wire
  import opened RateLimiter

  /** How far a keyed probe's timestamp may be from the server's clock. */
  const REPLAY_WINDOW: int := 30 * SECOND

  datatype Settings = Settings(allowed: set<string>, auth: Auth, caps: Caps)

  /** A datagram with its source address, the limiter's clock and the wall clock when it is read. */
  datatype Arrival = Arrival(bytes: seq<Byte>, from: string, at: int, wall: int)

  datatype Reply = Reply(to: string, bytes: seq<Byte>, at: int)

  datatype Server = Server(trace: Trace, received: map<string, nat>, replies: seq<Reply>)

  const STARTED: Server := Server(Empty, map[], [])

  predicate Fresh(auth: Auth, ts: Word, wall: int) {
    auth.Open? || -REPLAY_WINDOW <= wall - ToSigned(ts) <= REPLAY_WINDOW
  }

  /** The checks after the limiter. */
  predicate WellFormed(auth: Auth, bytes: seq<Byte>, wall: int) {
    Decode(auth, bytes).Some? && Fresh(auth, Decode(auth, bytes).value.ts, wall)
  }

  function Serve(cfg: Settings, s: Server, a: Arrival): Server {
    if a.from !in cfg.allowed then s
    else
      var ok := Admits(cfg.caps, s.trace, a.at, a.from);
      Answer(cfg, s.(trace := Call(s.trace, a.at, a.from, ok)), a, ok)
  }

  /** What follows the limiter's verdict. */
  function Answer(cfg: Settings, s: Server, a: Arrival, ok: bool): Server {
    if ok && WellFormed(cfg.auth, a.bytes, a.wall) then
      s.(received := s.received[a.from := Count(s.received, a.from) + 1],
         replies := s.replies + [Reply(a.from, a.bytes, a.at)])
    else s
  }

  function ServeAll(cfg: Settings, arrivals: seq<Arrival>): Server {
    if arrivals == [] then STARTED
    else Serve(cfg, ServeAll(cfg, arrivals[..|arrivals| - 1]), arrivals[|arrivals| - 1])
  }

  /** The loop of ServePacketConn over one reused read buffer. */
  class PacketServer {
    const cfg: Settings
    const limiter: Limiter
    const buf: array<Byte>
    var received: map<string, nat>
    var replies: seq<Reply>

    ghost function View(): Server
      reads this, limiter
    {
      Server(limiter.trace, received, replies)
    }

    ghost predicate Valid()
      reads this, limiter
    {
      buf.Length == MAX_DATAGRAM && limiter.Valid() && limiter.caps == cfg.caps
    }

    constructor (cfg: Settings)
      ensures Valid() && this.cfg == cfg && View() == STARTED && fresh(limiter) && fresh(buf)
    {
      this.cfg := cfg;
      limiter := new Limiter(cfg.caps);
      buf := new Byte[MAX_DATAGRAM](i => 0);
      received, replies := map[], [];
    }

    /** net.PacketConn.ReadFrom: fills the front of the buffer and truncates what does not fit. */
    method ReadFrom(a: Arrival) returns (n: nat)
      requires Valid()
      modifies buf
      ensures n == (if |a.bytes| <= 1500 then |a.bytes| else 1500) <= buf.Length
      ensures buf[..n] == a.bytes[..n]
    {
      n := if |a.bytes| <= MAX_DATAGRAM then |a.bytes| else MAX_DATAGRAM;
      PutBytes(buf, 0, a.bytes[..n]);
      assert buf[..n] == a.bytes[..n];
    }

    /** The size, magic, tag and freshness checks on the first n bytes of the buffer. */
    method Validate(n: nat, wall: int) returns (ok: bool)
      requires Valid() && n <= buf.Length
      ensures ok == WellFormed(cfg.auth, buf[..n], wall)
    {
      if n != PayloadSize(cfg.auth) { return false; }
      assert buf[..n][..8] == buf[..8];
      if buf[..8] != MAGIC { return false; }
      assert buf[..n][8..16] == buf[8..16] && buf[..n][16..24] == buf[16..24] && buf[..n][24..] == buf[24..n];
      match cfg.auth
      case Open => return true;
      case Keyed(mac) =>
        var num := Uint64(buf, 8);
        var ts := Uint64(buf, 16);
        var authentic := TagMatches(buf, 24, mac(num, ts));
        if !authentic { return false; }
        var skew := wall - ToSigned(ts);
        if skew > REPLAY_WINDOW || skew < -REPLAY_WINDOW { return false; }
        return true;
    }

    method Respond(a: Arrival, n: nat, ok: bool)
      requires Valid()
      requires n == (if |a.bytes| <= MAX_DATAGRAM then |a.bytes| else MAX_DATAGRAM) && buf[..n] == a.bytes[..n]
      modifies this
      ensures View() == Answer(cfg, old(View()), a, ok)
    {
      if !ok { return; }
      var valid := Validate(n, a.wall);
      TruncationIsHarmless(cfg.auth, a.bytes, n, a.wall);
      if !valid { return; }
      received := received[a.from := Count(received, a.from) + 1];
      replies := replies + [Reply(a.from, buf[..n], a.at)];
    }

    method ServeOne(a: Arrival)
      requires Valid()
      modifies this, limiter, buf
      ensures Valid() && View() == Serve(cfg, old(View()), a)
    {
      var n := ReadFrom(a);
      if a.from !in cfg.allowed { return; }
      var ok := limiter.Allow(a.at, a.from);
      Respond(a, n, ok);
    }

    method ServePacketConn(arrivals: seq<Arrival>)
      requires Valid() && View() == STARTED
      modifies this, limiter, buf
      ensures Valid() && View() == ServeAll(cfg, arrivals)
    {
      for i := 0 to |arrivals|
        invariant Valid() && View() == ServeAll(cfg, arrivals[..i])
      {
        assert arrivals[..i + 1][..i] == arrivals[..i];
        ServeOne(arrivals[i]);
      }
      assert arrivals[..|arrivals|] == arrivals;
    }
  }

  /** A datagram cut off by the read buffer is refused by its size, as the whole datagram is. */
  lemma TruncationIsHarmless(auth: Auth, d: seq<Byte>, n: nat, wall: int)
    requires n == if |d| <= MAX_DATAGRAM then |d| else MAX_DATAGRAM
    ensures WellFormed(auth, d[..n], wall) == WellFormed(auth, d, wall)
    ensures WellFormed(auth, d, wall) ==> d[..n] == d
  {
    if |d| <= MAX_DATAGRAM { assert d[..n] == d; }
  }

  /** With a key, a captured datagram is useful to a replay for at most a minute: two moments at which
      the same datagram passes are no further apart than twice the window, and within the window of its
      own timestamp nothing but the clock decides. */
  lemma ReplayHorizon(auth: Auth, d: seq<Byte>, first: int, later: int)
    requires auth.Keyed? && WellFormed(auth, d, first)
    ensures WellFormed(auth, d, later) ==> -60 * SECOND <= later - first <= 60 * SECOND
    ensures WellFormed(auth, d, later)
            <==> ToSigned(Decode(auth, d).value.ts) - 30 * SECOND <= later <= ToSigned(Decode(auth, d).value.ts) + 30 * SECOND
  {
  }

  /** Without a secret only size and header count: the clock and the timestamp are irrelevant. */
  lemma OpenIgnoresTime(d: seq<Byte>, wall: int)
    ensures WellFormed(Open, d, wall)
            <==> |d| == 24 && d[..8] == [0x4C, 0x4E, 0x4B, 0x50, 0x49, 0x4E, 0x47, 0x00]
  {
    if |d| == 24 { assert d[24..] == []; }
  }

  /** With a secret, a probe stamped at one instant passes exactly while the server's clock is within thirty
      seconds of it, either way. */
  lemma KeyedProbeWindow(mac: (Word, Word) -> Tag, n: Word, at: int, wall: int)
    requires -0x8000_0000_0000_0000 <= at < 0x8000_0000_0000_0000
    ensures WellFormed(Keyed(mac), Encode(Keyed(mac), Probe(n, ToWord(at))), wall)
            <==> at - 30_000_000_000 <= wall <= at + 30_000_000_000
  {
    DecodeEncode(Keyed(mac), Probe(n, ToWord(at)));
    SignedRoundTrip(at);
  }

  // ----- Sources outside the allowlist -----

  /** The arrivals from allowlisted sources, in order. */
  function FromAllowed(cfg: Settings, arrivals: seq<Arrival>): seq<Arrival> {
    if arrivals == [] then []
    else
      var before, a := FromAllowed(cfg, arrivals[..|arrivals| - 1]), arrivals[|arrivals| - 1];
      if a.from in cfg.allowed then before + [a] else before
  }

  /** What any other host sends is invisible: the limiter's trace, the counters and the replies are those
      the server would have had without it. */
  lemma {:induction false} ForeignIsInvisible(cfg: Settings, arrivals: seq<Arrival>)
    ensures ServeAll(cfg, arrivals) == ServeAll(cfg, FromAllowed(cfg, arrivals))
  {
    if arrivals == [] {
    } else {
      var n := |arrivals| - 1;
      var before := FromAllowed(cfg, arrivals[..n]);
      ForeignIsInvisible(cfg, arrivals[..n]);
      assert (before + [arrivals[n]])[..|before|] == before;
    }
  }

  /** The calls of a trace, in order, without the answers. */
  function CallsOf(t: Trace): seq<(int, string)> {
    match t
    case Empty => []
    case Call(past, at, ip, _) => CallsOf(past) + [(at, ip)]
  }

  function StampsOf(arrivals: seq<Arrival>): seq<(int, string)> {
    if arrivals == [] then []
    else StampsOf(arrivals[..|arrivals| - 1]) + [(arrivals[|arrivals| - 1].at, arrivals[|arrivals| - 1].from)]
  }

  /** The limiter is asked once for every datagram of an allowlisted source, in the order of arrival, and
      for no other. */
  lemma {:induction false} LimiterSeesAllowed(cfg: Settings, arrivals: seq<Arrival>)
    ensures CallsOf(ServeAll(cfg, arrivals).trace) == StampsOf(FromAllowed(cfg, arrivals))
  {
    if arrivals == [] {
    } else {
      var n := |arrivals| - 1;
      var before := FromAllowed(cfg, arrivals[..n]);
      LimiterSeesAllowed(cfg, arrivals[..n]);
      assert (before + [arrivals[n]])[..|before|] == before;
    }
  }

  // ----- Over whole runs -----

  function RepliesTo(replies: seq<Reply>, ip: string): nat {
    if replies == [] then 0
    else RepliesTo(replies[..|replies| - 1], ip) + (if replies[|replies| - 1].to == ip then 1 else 0)
  }

  function RepliesIn(replies: seq<Reply>, who: Option<string>, a: int, b: int): nat {
    if replies == [] then 0
    else
      var last := replies[|replies| - 1];
      RepliesIn(replies[..|replies| - 1], who, a, b)
      + (if Covers(who, last.to) && a <= last.at <= b then 1 else 0)
  }

  ghost predicate ClockMonotone(arrivals: seq<Arrival>) {
    forall i, j :: 0 <= i < j < |arrivals| ==> arrivals[i].at <= arrivals[j].at
  }

  /** Every reply returns, unchanged and to its sender, a well-formed datagram of an allowlisted
      source, and server_received counts the replies address by address. */
  lemma {:induction false} RepliesAreEchoes(cfg: Settings, arrivals: seq<Arrival>, ip: string)
    ensures var s := ServeAll(cfg, arrivals);
            && Count(s.received, ip) == RepliesTo(s.replies, ip)
            && forall r :: r in s.replies ==> EchoOf(cfg, arrivals, r)
  {
    if arrivals == [] {
    } else {
      var n := |arrivals| - 1;
      RepliesAreEchoes(cfg, arrivals[..n], ip);
      var before, s := ServeAll(cfg, arrivals[..n]), ServeAll(cfg, arrivals);
      AtMostOneReply(cfg, before, arrivals[n], ip);
      forall r | r in s.replies ensures EchoOf(cfg, arrivals, r) {
        if r in before.replies {
          var i :| 0 <= i < n && Echoes(cfg, arrivals[..n][i], r);
          assert Echoes(cfg, arrivals[i], r);
        } else {
          assert Echoes(cfg, arrivals[n], r);
        }
      }
    }
  }

  lemma AtMostOneReply(cfg: Settings, s: Server, a: Arrival, ip: string)
    ensures var next := Serve(cfg, s, a);
            && (forall r :: r in next.replies ==> r in s.replies || Echoes(cfg, a, r))
            && Count(next.received, ip) - Count(s.received, ip)
               == RepliesTo(next.replies, ip) - RepliesTo(s.replies, ip)
  {
    var reply := Reply(a.from, a.bytes, a.at);
    assert (s.replies + [reply])[..|s.replies|] == s.replies;
  }

  ghost predicate Echoes(cfg: Settings, a: Arrival, r: Reply) {
    r == Reply(a.from, a.bytes, a.at) && a.from in cfg.allowed && WellFormed(cfg.auth, a.bytes, a.wall)
  }

  ghost predicate EchoOf(cfg: Settings, arrivals: seq<Arrival>, r: Reply) {
    exists i :: 0 <= i < |arrivals| && Echoes(cfg, arrivals[i], r)
  }

  /** The echo rate over any interval, however the traffic is timed: at most what the limiter can admit in
      an interval of that length, in total and to each address. */
  lemma EchoRateBound(cfg: Settings, arrivals: seq<Arrival>, who: Option<string>, a: int, b: int)
    requires ClockMonotone(arrivals) && a <= b
    ensures RepliesIn(ServeAll(cfg, arrivals).replies, who, a, b)
            <= MostIn(cfg.caps, who, b - a)
  {
    EveryReplyWasAdmitted(cfg, arrivals, who, a, b);
    TraceIsMonotone(cfg, arrivals);
    NeverMoreThanMost(cfg.caps, ServeAll(cfg, arrivals).trace, who, a, b);
  }

  lemma {:induction false} TraceIsMonotone(cfg: Settings, arrivals: seq<Arrival>)
    requires ClockMonotone(arrivals)
    ensures var t := ServeAll(cfg, arrivals).trace;
            Monotone(t) && (t.Call? ==> arrivals != [] && t.at <= arrivals[|arrivals| - 1].at)
  {
    if arrivals == [] {
    } else {
      TraceIsMonotone(cfg, arrivals[..|arrivals| - 1]);
    }
  }

  lemma {:induction false} EveryReplyWasAdmitted(cfg: Settings, arrivals: seq<Arrival>, who: Option<string>, a: int, b: int)
    ensures var s := ServeAll(cfg, arrivals);
            Genuine(cfg.caps, s.trace) && RepliesIn(s.replies, who, a, b) <= AdmittedIn(s.trace, who, a, b)
  {
    if arrivals == [] {
    } else {
      var n := |arrivals| - 1;
      EveryReplyWasAdmitted(cfg, arrivals[..n], who, a, b);
      ReplyNeedsAdmission(cfg, ServeAll(cfg, arrivals[..n]), arrivals[n], who, a, b);
    }
  }

  lemma ReplyNeedsAdmission(cfg: Settings, s: Server, arrival: Arrival, who: Option<string>, a: int, b: int)
    requires Genuine(cfg.caps, s.trace) && RepliesIn(s.replies, who, a, b) <= AdmittedIn(s.trace, who, a, b)
    ensures var next := Serve(cfg, s, arrival);
            Genuine(cfg.caps, next.trace) && RepliesIn(next.replies, who, a, b) <= AdmittedIn(next.trace, who, a, b)
  {
    if arrival.from in cfg.allowed {
      var ok := Admits(cfg.caps, s.trace, arrival.at, arrival.from);
      var charged := s.(trace := Call(s.trace, arrival.at, arrival.from, ok));
      var next := Answer(cfg, charged, arrival, ok);
      var reply := Reply(arrival.from, arrival.bytes, arrival.at);
      assert next.trace == charged.trace;
      assert next.replies == s.replies || (ok && next.replies == s.replies + [reply]);
      OneMoreReply(s.replies, reply, who, a, b);
    }
  }

  lemma OneMoreReply(replies: seq<Reply>, r: Reply, who: Option<string>, a: int, b: int)
    ensures RepliesIn(replies + [r], who, a, b)
            == RepliesIn(replies, who, a, b) + (if Covers(who, r.to) && a <= r.at <= b then 1 else 0)
  {
    assert (replies + [r])[..|replies|] == replies;
  }

  /** The limiter weighs every allowlisted datagram before looking inside it: its verdicts, and what it
      charges, depend only on the sources and the times. */
  lemma {:induction false} VerdictsIgnoreContents(cfg: Settings, xs: seq<Arrival>, ys: seq<Arrival>)
    requires |xs| == |ys|
    requires forall i :: 0 <= i < |xs| ==> xs[i].from == ys[i].from && xs[i].at == ys[i].at
    ensures ServeAll(cfg, xs).trace == ServeAll(cfg, ys).trace
  {
    if xs == [] {
    } else {
      VerdictsIgnoreContents(cfg, xs[..|xs| - 1], ys[..|ys| - 1]);
    }
  }
}
