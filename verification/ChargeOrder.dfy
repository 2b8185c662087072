/** What it costs that the echo server charges its limiter before it validates a datagram: malformed
    datagrams use up the caps. Below the caps the order makes no difference, above them it does. */
module ChargeOrder {
  import opened Units
  import opened Wire
  import opened RateLimiter
  import opened EchoServer

  // ----- Malformed datagrams use up the cap -----

  /** k empty datagrams from one source at one instant. */
  function Junk(ip: string, at: int, k: nat): seq<Arrival> {
    seq(k, _ => Arrival([], ip, at, at))
  }

  lemma {:induction false} JunkIsCharged(cfg: Settings, ip: string, at: int, k: nat)
    requires ip in cfg.allowed && k <= cfg.caps.perIp && k <= cfg.caps.total
    ensures var s := ServeAll(cfg, Junk(ip, at, k));
            s.replies == [] && s.received == map[] && Charged(s.trace, None, at) == k && Charged(s.trace, Some(ip), at) == k
    ensures k > 0 ==> WindowStart(ServeAll(cfg, Junk(ip, at, k)).trace) == Some(at)
  {
    if k == 0 {
    } else {
      JunkIsCharged(cfg, ip, at, k - 1);
      assert Junk(ip, at, k)[..k - 1] == Junk(ip, at, k - 1);
      var before := ServeAll(cfg, Junk(ip, at, k - 1));
      assert !WellFormed(cfg.auth, [], at);
      AdmittedIsCharged(before.trace, at, ip);
      assert ServeAll(cfg, Junk(ip, at, k)).trace == Call(before.trace, at, ip, true);
    }
  }

  /** A cap's worth of empty datagrams, none of which can be echoed, gets a well-formed one refused that
      would have been echoed without them. */
  lemma MalformedStarveWellFormed(cfg: Settings, ip: string, at: int, probe: seq<Byte>)
    requires ip in cfg.allowed && cfg.caps.perIp >= 1 && cfg.caps.total >= 1 && WellFormed(cfg.auth, probe, at)
    ensures var k := if cfg.caps.perIp <= cfg.caps.total then cfg.caps.perIp else cfg.caps.total;
            var a := Arrival(probe, ip, at, at);
            && ServeAll(cfg, [a]).replies == [Reply(ip, probe, at)]
            && ServeAll(cfg, Junk(ip, at, k) + [a]).replies == []
  {
    var k := if cfg.caps.perIp <= cfg.caps.total then cfg.caps.perIp else cfg.caps.total;
    var a := Arrival(probe, ip, at, at);
    JunkIsCharged(cfg, ip, at, k);
    JunkIsCharged(cfg, ip, at, 0);
    assert (Junk(ip, at, k) + [a])[..k] == Junk(ip, at, k);
    assert [a][..0] == Junk(ip, at, 0);
  }

  // ----- Against a server that validates first -----

  /** The server as its comments have it: only validated datagrams reach the limiter. */
  function ServeValidated(cfg: Settings, s: Server, a: Arrival): Server {
    if WellFormed(cfg.auth, a.bytes, a.wall) then Serve(cfg, s, a) else s
  }

  function ServeIn(cfg: Settings, validateFirst: bool, arrivals: seq<Arrival>): Server {
    if arrivals == [] then STARTED
    else
      var before, a := ServeIn(cfg, validateFirst, arrivals[..|arrivals| - 1]), arrivals[|arrivals| - 1];
      if validateFirst then ServeValidated(cfg, before, a) else Serve(cfg, before, a)
  }

  lemma {:induction false} ChargingFirstIsTheServer(cfg: Settings, arrivals: seq<Arrival>)
    ensures ServeIn(cfg, false, arrivals) == ServeAll(cfg, arrivals)
  {
    if arrivals == [] {
    } else {
      ChargingFirstIsTheServer(cfg, arrivals[..|arrivals| - 1]);
    }
  }

  /** The replies of a server without a limiter. */
  function Unlimited(cfg: Settings, arrivals: seq<Arrival>): seq<Reply> {
    if arrivals == [] then []
    else
      var before, a := Unlimited(cfg, arrivals[..|arrivals| - 1]), arrivals[|arrivals| - 1];
      if a.from in cfg.allowed && WellFormed(cfg.auth, a.bytes, a.wall) then before + [Reply(a.from, a.bytes, a.at)]
      else before
  }

  /** The datagrams that arrive in the closed interval [a, b]. */
  function DatagramsIn(arrivals: seq<Arrival>, a: int, b: int): nat {
    if arrivals == [] then 0
    else DatagramsIn(arrivals[..|arrivals| - 1], a, b) + (if a <= arrivals[|arrivals| - 1].at <= b then 1 else 0)
  }

  /** The datagrams in the second that ends at this instant. */
  function InSecond(arrivals: seq<Arrival>, end: int): nat {
    DatagramsIn(arrivals, end - SECOND + 1, end)
  }

  /** No second sees more than n datagrams, of any kind. */
  ghost predicate AtMostPerSecond(arrivals: seq<Arrival>, n: nat) {
    forall end: int :: InSecond(arrivals, end) <= n
  }

  lemma {:induction false} NoMoreThanAll(arrivals: seq<Arrival>, a: int, b: int)
    ensures DatagramsIn(arrivals, a, b) <= |arrivals|
  {
    if arrivals == [] {
    } else {
      NoMoreThanAll(arrivals[..|arrivals| - 1], a, b);
    }
  }

  lemma {:induction false} AdmittedDidArrive(cfg: Settings, validateFirst: bool, arrivals: seq<Arrival>,
                                             who: Option<string>, a: int, b: int)
    requires ClockMonotone(arrivals)
    ensures var t := ServeIn(cfg, validateFirst, arrivals).trace;
            && AdmittedIn(t, who, a, b) <= DatagramsIn(arrivals, a, b) && Monotone(t)
            && (t.Call? ==> arrivals != [] && t.at <= arrivals[|arrivals| - 1].at)
  {
    if arrivals == [] {
    } else {
      AdmittedDidArrive(cfg, validateFirst, arrivals[..|arrivals| - 1], who, a, b);
    }
  }

  /** Below the caps the limiter is invisible, whatever it is charged for. */
  lemma {:induction false} EverythingAdmitted(cfg: Settings, validateFirst: bool, arrivals: seq<Arrival>, n: nat)
    requires cfg.caps.perIp >= 1 && cfg.caps.total >= 1 && n <= cfg.caps.perIp && n <= cfg.caps.total
    requires ClockMonotone(arrivals) && AtMostPerSecond(arrivals, n)
    ensures ServeIn(cfg, validateFirst, arrivals).replies == Unlimited(cfg, arrivals)
  {
    if arrivals == [] {
    } else {
      var m := |arrivals| - 1;
      var prior, a := arrivals[..m], arrivals[m];
      forall end: int ensures InSecond(prior, end) <= n { assert InSecond(prior, end) <= InSecond(arrivals, end) <= n; }
      assert InSecond(arrivals, a.at) <= n;
      EverythingAdmitted(cfg, validateFirst, prior, n);
      OneMoreAdmitted(cfg, validateFirst, prior, a, n);
    }
  }

  lemma OneMoreAdmitted(cfg: Settings, validateFirst: bool, prior: seq<Arrival>, a: Arrival, n: nat)
    requires cfg.caps.perIp >= 1 && cfg.caps.total >= 1 && n <= cfg.caps.perIp && n <= cfg.caps.total
    requires ClockMonotone(prior) && (forall i :: 0 <= i < |prior| ==> prior[i].at <= a.at)
    requires DatagramsIn(prior, a.at - SECOND + 1, a.at) + 1 <= n
    ensures Admits(cfg.caps, ServeIn(cfg, validateFirst, prior).trace, a.at, a.from)
  {
    var t := ServeIn(cfg, validateFirst, prior).trace;
    AdmittedDidArrive(cfg, validateFirst, prior, None, a.at - SECOND + 1, a.at);
    AdmittedDidArrive(cfg, validateFirst, prior, Some(a.from), a.at - SECOND + 1, a.at);
    if !Admits(cfg.caps, t, a.at, a.from) { RefusedOnlyUnderLoad(cfg.caps, t, a.at, a.from); }
  }

  /** The server and one that validates first give the same replies. */
  ghost predicate SameReplies(cfg: Settings, arrivals: seq<Arrival>) {
    ServeAll(cfg, arrivals).replies == ServeIn(cfg, true, arrivals).replies
  }

  /** Charging before validating makes no difference to what is echoed, for any arrivals of at most n
      datagrams a second, exactly when n is within both caps. */
  lemma OrderIsInvisibleIff(cfg: Settings, n: nat)
    requires cfg.caps.perIp >= 1 && cfg.caps.total >= 1 && cfg.allowed != {}
    ensures (forall arrivals :: ClockMonotone(arrivals) && AtMostPerSecond(arrivals, n) ==> SameReplies(cfg, arrivals))
            <==> n <= cfg.caps.perIp && n <= cfg.caps.total
  {
    if n <= cfg.caps.perIp && n <= cfg.caps.total {
      forall arrivals | ClockMonotone(arrivals) && AtMostPerSecond(arrivals, n) ensures SameReplies(cfg, arrivals) {
        EverythingAdmitted(cfg, false, arrivals, n);
        EverythingAdmitted(cfg, true, arrivals, n);
        ChargingFirstIsTheServer(cfg, arrivals);
      }
    } else {
      OneTooMany(cfg, n);
    }
  }

  /** A cap's worth of empty datagrams and one probe, all at one instant. */
  lemma OneTooMany(cfg: Settings, n: nat)
    requires cfg.caps.perIp >= 1 && cfg.caps.total >= 1 && cfg.allowed != {}
    requires n > cfg.caps.perIp || n > cfg.caps.total
    ensures exists arrivals :: ClockMonotone(arrivals) && AtMostPerSecond(arrivals, n) && !SameReplies(cfg, arrivals)
  {
    var ip :| ip in cfg.allowed;
    var k := if cfg.caps.perIp <= cfg.caps.total then cfg.caps.perIp else cfg.caps.total;
    var probe := Encode(cfg.auth, Probe(0, 0));
    DecodeEncode(cfg.auth, Probe(0, 0));
    MalformedStarveWellFormed(cfg, ip, 0, probe);
    ValidatingFirstEchoes(cfg, ip, k, probe);
    JunkAndProbe(ip, k, probe, n);
    assert !SameReplies(cfg, Junk(ip, 0, k) + [Arrival(probe, ip, 0, 0)]);
  }

  lemma JunkAndProbe(ip: string, k: nat, probe: seq<Byte>, n: nat)
    requires k + 1 <= n
    ensures var arrivals := Junk(ip, 0, k) + [Arrival(probe, ip, 0, 0)];
            ClockMonotone(arrivals) && AtMostPerSecond(arrivals, n)
  {
    var arrivals := Junk(ip, 0, k) + [Arrival(probe, ip, 0, 0)];
    forall end: int ensures InSecond(arrivals, end) <= n { NoMoreThanAll(arrivals, end - SECOND + 1, end); }
  }

  lemma ValidatingFirstEchoes(cfg: Settings, ip: string, k: nat, probe: seq<Byte>)
    requires cfg.caps.perIp >= 1 && cfg.caps.total >= 1 && ip in cfg.allowed && WellFormed(cfg.auth, probe, 0)
    ensures ServeIn(cfg, true, Junk(ip, 0, k) + [Arrival(probe, ip, 0, 0)]).replies == [Reply(ip, probe, 0)]
  {
    var arrivals := Junk(ip, 0, k) + [Arrival(probe, ip, 0, 0)];
    assert arrivals[..k] == Junk(ip, 0, k);
    JunkIsIgnored(cfg, ip, 0, k);
    FirstProbeIsEchoed(cfg, ip, probe);
  }

  lemma FirstProbeIsEchoed(cfg: Settings, ip: string, probe: seq<Byte>)
    requires cfg.caps.perIp >= 1 && cfg.caps.total >= 1 && ip in cfg.allowed && WellFormed(cfg.auth, probe, 0)
    ensures ServeValidated(cfg, STARTED, Arrival(probe, ip, 0, 0)).replies == [Reply(ip, probe, 0)]
  {
    assert Admits(cfg.caps, Empty, 0, ip);
  }

  lemma {:induction false} JunkIsIgnored(cfg: Settings, ip: string, at: int, k: nat)
    ensures ServeIn(cfg, true, Junk(ip, at, k)) == STARTED
  {
    if k == 0 {
    } else {
      JunkIsIgnored(cfg, ip, at, k - 1);
      assert Junk(ip, at, k)[..k - 1] == Junk(ip, at, k - 1);
      assert !WellFormed(cfg.auth, [], at);
    }
  }
}
