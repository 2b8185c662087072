/** What the estimator guarantees over whole runs: any sequence of measurements and timeouts,
    starting from NewAdaptiveStats. */
module EstimatorRuns {
  import opened Units
  import opened Estimator

  datatype Op = Measured(rtt: real) | Expired

  function Apply(e: Estimate, op: Op): Estimate {
    match op
    case Measured(rtt) => Updated(e, rtt)
    case Expired => BackedOff(e)
  }

  function Fold(base: int, ops: seq<Op>): Estimate {
    if ops == [] then Initial(base) else Apply(Fold(base, ops[..|ops| - 1]), ops[|ops| - 1])
  }

  /** Every measurement of the run lies in [lo, hi] seconds. */
  ghost predicate SamplesWithin(ops: seq<Op>, lo: real, hi: real) {
    forall i :: 0 <= i < |ops| && ops[i].Measured? ==> lo <= ops[i].rtt <= hi
  }

  predicate HasSample(ops: seq<Op>) {
    exists i :: 0 <= i < |ops| && ops[i].Measured?
  }

  // ----- Hull -----

  /** SRTT never leaves the hull of the samples, and RTTVAR is at most max(hi/2, hi-lo). */
  lemma {:induction false} Hull(base: int, ops: seq<Op>, lo: real, hi: real)
    requires 0.0 <= lo <= hi
    requires SamplesWithin(ops, lo, hi)
    ensures HasSample(ops) ==> lo <= Fold(base, ops).srtt <= hi
    ensures HasSample(ops) ==> 0.0 <= Fold(base, ops).rttvar <= Max(hi / 2.0, hi - lo)
    ensures !HasSample(ops) ==> Fold(base, ops).srtt == 0.0 && Fold(base, ops).rttvar == 0.0
  {
    if ops == [] {
    } else {
      var n := |ops| - 1;
      var prior := ops[..n];
      assert forall i :: 0 <= i < n ==> prior[i] == ops[i];
      Hull(base, prior, lo, hi);
      if ops[n].Measured? {
        assert HasSample(ops);
      } else {
        assert HasSample(ops) == HasSample(prior);
      }
    }
  }

  // ----- A steady link -----

  function Repeat(rtt: real, n: nat): seq<Op> {
    seq(n, i => Measured(rtt))
  }

  /** first * (3/4)^n, as SpreadIsGeometric shows. */
  function Spread(first: real, n: nat): real {
    if n == 0 then first else 0.75 * Spread(first, n - 1)
  }

  lemma {:induction false} SpreadIsGeometric(first: real, n: nat)
    ensures Spread(first, n) == first * Power(0.75, n)
  {
    if n == 0 {
    } else {
      SpreadIsGeometric(first, n - 1);
      Reassociate(first, 0.75, Power(0.75, n - 1));
    }
  }

  /** n equal samples R: RTTVAR decays by 3/4 a sample, so RTO = R + max(G, 2R(3/4)^(n-1)). */
  lemma {:induction false} SteadyLink(base: int, rtt: real, n: nat)
    requires rtt > 0.0 && n >= 1
    ensures var e := Fold(base, Repeat(rtt, n));
            e.srtt == rtt && 4.0 * e.rttvar == Spread(2.0 * rtt, n - 1)
            && e.rto == rtt + Max(0.001, Spread(2.0 * rtt, n - 1))
  {
    var ops := Repeat(rtt, n);
    assert ops[..n - 1] == Repeat(rtt, n - 1);
    if n == 1 {
      assert Fold(base, ops[..0]) == Initial(base);
    } else {
      SteadyLink(base, rtt, n - 1);
      SteadySample(Fold(base, Repeat(rtt, n - 1)), rtt, Spread(2.0 * rtt, n - 2));
    }
  }

  lemma SteadySample(e: Estimate, rtt: real, x: real)
    requires rtt > 0.0 && e.srtt == rtt && 4.0 * e.rttvar == x
    ensures Updated(e, rtt).srtt == rtt && 4.0 * Updated(e, rtt).rttvar == 0.75 * x
    ensures Updated(e, rtt).rto == rtt + Max(0.001, 0.75 * x)
  {
  }

  // ----- RFC 6298, sections 2.2 and 2.3 -----

  datatype Smoothing = Smoothing(srtt: real, rttvar: real)

  /** The smoothing of RFC 6298 with the first measurement singled out by its position. */
  function Rfc6298(samples: seq<real>): Smoothing
    requires samples != []
  {
    var n := |samples| - 1;
    var r := samples[n];
    if n == 0 then Smoothing(r, r / 2.0) else
      var old' := Rfc6298(samples[..n]);
      Smoothing(0.875 * old'.srtt + 0.125 * r, 0.75 * old'.rttvar + 0.25 * Abs(old'.srtt - r))
  }

  /** The RTO of section 2.3, with the clock granularity of section 2.4 as floor of the variance term. */
  function RtoOf(s: Smoothing): real {
    s.srtt + Max(0.001, 4.0 * s.rttvar)
  }

  /** The measurements of a run, without the timeouts between them. */
  function SamplesOf(ops: seq<Op>): seq<real> {
    if ops == [] then []
    else
      var before, last := SamplesOf(ops[..|ops| - 1]), ops[|ops| - 1];
      if last.Measured? then before + [last.rtt] else before
  }

  ghost predicate Causal(ops: seq<Op>) {
    forall i :: 0 <= i < |ops| && ops[i].Measured? ==> ops[i].rtt >= 0.0
  }

  /** The program recognises the first measurement by SRTT == 0. Over any run of measurements and timeouts
      that agrees with RFC 6298 exactly when the first measurement is positive, or when no measurement is.
      The RTO set by the last measurement follows from SRTT and RTTVAR as the standard says in every case. */
  lemma MatchesRfc6298(base: int, ops: seq<Op>)
    requires Causal(ops) && SamplesOf(ops) != []
    ensures var e, samples := Fold(base, ops), SamplesOf(ops);
            && (Smoothing(e.srtt, e.rttvar) == Rfc6298(samples)
                <==> samples[0] > 0.0 || forall i :: 0 <= i < |samples| ==> samples[i] == 0.0)
            && BaseRto(base, ops) == RtoOf(Smoothing(e.srtt, e.rttvar))
  {
    SmoothingInvariant(base, ops);
    RtoFollows(base, ops);
  }

  lemma {:induction false} RtoFollows(base: int, ops: seq<Op>)
    requires SamplesOf(ops) != []
    ensures BaseRto(base, ops) == RtoOf(Smoothing(Fold(base, ops).srtt, Fold(base, ops).rttvar))
  {
    if ops[|ops| - 1].Measured? {
    } else {
      RtoFollows(base, ops[..|ops| - 1]);
    }
  }

  lemma {:induction false} NothingMeasured(base: int, ops: seq<Op>)
    requires SamplesOf(ops) == []
    ensures Fold(base, ops).srtt == 0.0 && Fold(base, ops).rttvar == 0.0
  {
    if ops == [] {
    } else {
      NothingMeasured(base, ops[..|ops| - 1]);
    }
  }

  /** Where the smoothing stands against the standard's, in each of the three cases. */
  ghost predicate Compares(e: Estimate, samples: seq<real>)
    requires samples != []
  {
    var r := Rfc6298(samples);
    if samples[0] > 0.0 then e.srtt > 0.0 && Smoothing(e.srtt, e.rttvar) == r
    else if forall i :: 0 <= i < |samples| ==> samples[i] == 0.0
    then e.srtt == 0.0 && e.rttvar == 0.0 && r == Smoothing(0.0, 0.0)
    else e.srtt > r.srtt >= 0.0
  }

  lemma FirstCompares(e: Estimate, rtt: real)
    requires e.srtt == 0.0 && e.rttvar == 0.0 && rtt >= 0.0
    ensures Compares(Updated(e, rtt), [rtt])
  {
  }

  lemma OneMoreCompares(e: Estimate, samples: seq<real>, rtt: real)
    requires samples != [] && samples[0] >= 0.0 && rtt >= 0.0 && Compares(e, samples)
    ensures Compares(Updated(e, rtt), samples + [rtt])
  {
    var more := samples + [rtt];
    assert more[..|samples|] == samples;
    assert forall i :: 0 <= i < |samples| ==> more[i] == samples[i];
  }

  lemma {:induction false} SmoothingInvariant(base: int, ops: seq<Op>)
    requires Causal(ops) && SamplesOf(ops) != []
    ensures SamplesOf(ops)[0] >= 0.0 && Compares(Fold(base, ops), SamplesOf(ops))
  {
    var n := |ops| - 1;
    var prior := ops[..n];
    assert forall i :: 0 <= i < n ==> prior[i] == ops[i];
    if SamplesOf(prior) == [] {
      NothingMeasured(base, prior);
      FirstCompares(Fold(base, prior), ops[n].rtt);
    } else {
      SmoothingInvariant(base, prior);
      if ops[n].Measured? { OneMoreCompares(Fold(base, prior), SamplesOf(prior), ops[n].rtt); }
    }
  }

  /** A first measurement of zero is forgotten: after 0 s and 1 s the program has an SRTT of 1 s, the
      standard one of 1/8 s. */
  lemma ZeroFirstDiffers(base: int)
    ensures Fold(base, [Measured(0.0), Measured(1.0)]).srtt == 1.0 && Rfc6298([0.0, 1.0]).srtt == 0.125
  {
    var ops := [Measured(0.0), Measured(1.0)];
    assert ops[..1] == [Measured(0.0)] && [Measured(0.0)][..0] == [];
    assert Fold(base, [Measured(0.0)]) == Updated(Initial(base), 0.0);
    assert [0.0, 1.0][..1] == [0.0];
  }

  // ----- Backoff -----

  /** The timeouts since the last measurement. */
  function Streak(ops: seq<Op>): nat {
    if ops == [] || ops[|ops| - 1].Measured? then 0 else 1 + Streak(ops[..|ops| - 1])
  }

  /** The RTO set by the last measurement, or the initial one. */
  function BaseRto(base: int, ops: seq<Op>): real {
    if ops == [] then Seconds(base)
    else if ops[|ops| - 1].Measured? then Fold(base, ops).rto
    else BaseRto(base, ops[..|ops| - 1])
  }

  /** rto doubled at all of j timeouts in a row but the first. */
  function Doublings(rto: real, j: nat): real {
    if j <= 1 then rto else 2.0 * Doublings(rto, j - 1)
  }

  lemma {:induction false} DoublingsArePowers(rto: real, j: nat)
    requires j >= 1
    ensures Doublings(rto, j) == Power(2.0, j - 1) * rto
    ensures rto > 0.0 ==> Doublings(rto, j) > 0.0
  {
    if j == 1 {
    } else {
      DoublingsArePowers(rto, j - 1);
      var p := Power(2.0, j - 2);
      assert Power(2.0, j - 1) == 2.0 * p;
      assert (2.0 * p) * rto == 2.0 * (p * rto);
    }
  }

  function DoubledRto(rto: real, c: nat): real {
    if c <= 1 then rto else Min(Doublings(rto, c), 3.0)
  }

  /** After any run the stored RTO is the last measured one, doubled once for every consecutive
      timeout but the first and capped at 3 s. */
  lemma {:induction false} BackoffClosedForm(base: int, ops: seq<Op>)
    requires base > 0
    requires Causal(ops)
    ensures Fold(base, ops).consecutiveTimeouts == Streak(ops)
    ensures Fold(base, ops).rto == DoubledRto(BaseRto(base, ops), Streak(ops))
    ensures BaseRto(base, ops) > 0.0 && Fold(base, ops).rto > 0.0 && Fold(base, ops).srtt >= 0.0
  {
    if ops == [] {
    } else {
      var n := |ops| - 1;
      var prior := ops[..n];
      assert forall i :: 0 <= i < n ==> prior[i] == ops[i];
      BackoffClosedForm(base, prior);
      if ops[n].Expired? && Streak(prior) >= 1 {
        OneMoreDoubling(BaseRto(base, prior), Streak(prior));
      }
    }
  }

  lemma OneMoreDoubling(rto: real, c: nat)
    requires rto > 0.0 && c >= 1
    ensures Min(2.0 * DoubledRto(rto, c), 3.0) == DoubledRto(rto, c + 1)
    ensures DoubledRto(rto, c + 1) > 0.0
  {
    DoublingsArePowers(rto, c);
    CapTwice(Doublings(rto, c), Doublings(rto, c + 1));
  }

  lemma CapTwice(y: real, twice: real)
    requires y > 0.0 && twice == 2.0 * y
    ensures Min(2.0 * Min(y, 3.0), 3.0) == Min(twice, 3.0)
  {
  }

  lemma {:induction false} PowerOfTwo(n: nat)
    ensures Power(2.0, n) >= 1.0
    ensures n >= 12 ==> Power(2.0, n) >= 4096.0
  {
    if n == 0 {
    } else if n == 12 {
      assert Power(2.0, 4) == 16.0;
      assert Power(2.0, 8) == 16.0 * Power(2.0, 4);
      assert Power(2.0, 12) == 16.0 * Power(2.0, 8);
    } else {
      PowerOfTwo(n - 1);
    }
  }

  /** Thirteen consecutive timeouts after any measurement saturate the stored RTO at 3 s. */
  lemma Saturation(base: int, ops: seq<Op>)
    requires base > 0
    requires Causal(ops)
    requires HasSample(ops) && Streak(ops) >= 13
    ensures Fold(base, ops).rto == 3.0
  {
    BackoffClosedForm(base, ops);
    MeasuredBase(base, ops);
    var c := Streak(ops);
    PowerOfTwo(c - 1);
    var p, b := Power(2.0, c - 1), BaseRto(base, ops);
    DoublingsArePowers(b, c);
    assert p * b >= 4096.0 * 0.001 by {
      assert p * b >= 4096.0 * b;
    }
  }

  lemma {:induction false} MeasuredBase(base: int, ops: seq<Op>)
    requires base > 0
    requires Causal(ops)
    requires HasSample(ops)
    ensures BaseRto(base, ops) >= 0.001
  {
    var n := |ops| - 1;
    var prior := ops[..n];
    assert forall i :: 0 <= i < n ==> prior[i] == ops[i];
    BackoffClosedForm(base, prior);
    if ops[n].Measured? {
    } else {
      assert HasSample(prior) by {
        var i :| 0 <= i < |ops| && ops[i].Measured?;
        assert prior[i].Measured?;
      }
      MeasuredBase(base, prior);
    }
  }

  // ----- Clamp -----

  /** CurrentRTO is at least 200 ms, at least twice SRTT, and at most max(3 s, 2*SRTT), up to the
      fraction of a nanosecond that the conversion drops. The 3 s cap alone does not bound it. */
  lemma ClampBounds(e: Estimate)
    ensures SECOND / 5 <= CurrentRto(e)
    ensures (2.0 * e.srtt * 1_000_000_000.0).Floor <= CurrentRto(e)
    ensures CurrentRto(e) <= (Max(3.0, 2.0 * e.srtt) * 1_000_000_000.0).Floor
    ensures CurrentRto(e) <= 3 * SECOND <==> 2.0 * e.srtt * 1_000_000_000.0 < 3_000_000_001.0
  {
    assert ClampedRto(e) <= Max(3.0, 2.0 * e.srtt);
    assert ClampedRto(e) * 1_000_000_000.0 <= Max(3.0, 2.0 * e.srtt) * 1_000_000_000.0;
  }

  /** Nanoseconds, the fraction dropped. */
  function Nanoseconds(seconds: real): int {
    (seconds * 1_000_000_000.0).Floor
  }

  /** The timeout in force in every case, for an RTO r and the floor f = max(200 ms, 2*SRTT): f if r is not
      above it, else r up to 3 s, else 3 s, unless f is above 3 s. */
  ghost predicate InForce(timeout: int, r: real, srtt: real) {
    var f := if 2.0 * srtt >= 0.2 then 2.0 * srtt else 0.2;
    && (r <= f ==> timeout == Nanoseconds(f))
    && (f <= r <= 3.0 ==> timeout == Nanoseconds(r))
    && (f <= 3.0 <= r ==> timeout == 3_000_000_000)
    && (3.0 <= f ==> timeout == Nanoseconds(f))
  }

  /** CurrentRTO is the RTO itself wherever neither the floor nor the cap is in the way. */
  lemma TimeoutInForce(e: Estimate)
    ensures InForce(CurrentRto(e), e.rto, e.srtt)
  {
    var f := if 2.0 * e.srtt >= 0.2 then 2.0 * e.srtt else 0.2;
    assert f == Max(0.2, 2.0 * e.srtt);
    assert Nanoseconds(3.0) == 3_000_000_000;
  }

  /** For example, after RTTs of 100 ms and 300 ms the timeout is 475 ms, nearly four times the SRTT. */
  lemma TimeoutAfterTwo(base: int)
    ensures CurrentRto(Fold(base, [Measured(0.1), Measured(0.3)])) == 475_000_000
  {
    var ops := [Measured(0.1), Measured(0.3)];
    assert ops[..1] == [Measured(0.1)] && [Measured(0.1)][..0] == [];
    assert Fold(base, [Measured(0.1)]) == Updated(Initial(base), 0.1);
    var e := Fold(base, ops);
    assert e.srtt == 0.125 && e.rttvar == 0.0875 && e.rto == 0.475;
    TimeoutInForce(e);
  }

  /** The largest timeout that RTTs of at most hi seconds can lead to, in nanoseconds. */
  function TimeoutCap(hi: real): int {
    (Max(3.0, 2.0 * hi) * 1_000_000_000.0).Floor
  }

  /** Over any run with no sample above hi the timeout stays within max(3 s, 2*hi); so the 3 s cap does
      hold on a link whose RTTs never exceed 1.5 s. */
  lemma CapOverRuns(base: int, ops: seq<Op>, hi: real)
    requires hi >= 0.0 && SamplesWithin(ops, 0.0, hi)
    ensures SECOND / 5 <= CurrentRto(Fold(base, ops)) <= TimeoutCap(hi)
    ensures hi <= 1.5 ==> TimeoutCap(hi) == 3 * SECOND
  {
    Hull(base, ops, 0.0, hi);
    var e := Fold(base, ops);
    ClampBounds(e);
    assert e.srtt <= hi by { if !HasSample(ops) { assert e.srtt == 0.0; } }
    assert Max(3.0, 2.0 * e.srtt) * 1_000_000_000.0 <= Max(3.0, 2.0 * hi) * 1_000_000_000.0;
  }

  /** A timeout never shortens the timeout in force, even where it lowers the stored RTO, which it
      does exactly when a second timeout finds an RTO above the cap. */
  lemma BackoffNeverShortens(e: Estimate)
    requires e.rto >= 0.0
    ensures CurrentRto(BackedOff(e)) >= CurrentRto(e)
    ensures BackedOff(e).rto < e.rto <==> e.consecutiveTimeouts >= 1 && e.rto > 3.0
  {
    assert ClampedRto(BackedOff(e)) >= ClampedRto(e);
    assert ClampedRto(BackedOff(e)) * 1_000_000_000.0 >= ClampedRto(e) * 1_000_000_000.0;
  }
}
