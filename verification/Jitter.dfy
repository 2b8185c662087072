/** The jitter gauge as a function of the matched samples: the estimator of section 6.4.1 of RFC 3550
    over the longest run of consecutive sequence numbers that ends with the latest sample. */
module Jitter {
  import opened Units
  import opened ProbeLoop
  import opened Conservation

  datatype Sample = Sample(seqNo: nat, rtt: real)

  /** The matched probes in the order they were drained, across sessions. */
  function SamplesIn(h: History): seq<Sample> {
    match h
    case Start => []
    case Then(past, e) =>
      if e.Matched? then SamplesIn(past) + [Sample(e.seqNo, Seconds(e.rtt))] else SamplesIn(past)
  }

  /** The samples from index k on carry consecutive sequence numbers. */
  ghost predicate ConsecutiveFrom(samples: seq<Sample>, k: nat) {
    forall i :: k < i < |samples| ==> samples[i].seqNo == samples[i - 1].seqNo + 1
  }

  /** Where the longest run of consecutive sequence numbers at the end of the samples begins. */
  function RunStart(samples: seq<Sample>): nat
    requires samples != []
  {
    var n := |samples| - 1;
    if n > 0 && samples[n].seqNo == samples[n - 1].seqNo + 1 then RunStart(samples[..n]) else n
  }

  lemma {:induction false} RunStartIsLongest(samples: seq<Sample>, k: nat)
    requires samples != []
    ensures RunStart(samples) < |samples|
    ensures k < |samples| ==> (ConsecutiveFrom(samples, k) <==> RunStart(samples) <= k)
  {
    var n := |samples| - 1;
    if n == 0 || samples[n].seqNo != samples[n - 1].seqNo + 1 {
    } else {
      var prior := samples[..n];
      RunStartIsLongest(prior, k);
      if k < n {
        assert ConsecutiveFrom(samples, k) <==> ConsecutiveFrom(prior, k) by {
          assert forall i :: 0 <= i < n ==> samples[i] == prior[i];
        }
      }
    }
  }

  /** J(i) = J(i-1) + (|D(i-1,i)| - J(i-1))/16, from J = 0 at the first sample of the run. */
  function Rfc3550(run: seq<Sample>): real {
    var n := |run| - 1;
    if n <= 0 then 0.0 else
      var before := Rfc3550(run[..n]);
      before + (Abs(run[n].rtt - run[n - 1].rtt) - before) / 16.0
  }

  /** The samples the estimate is computed from. */
  function CurrentRun(samples: seq<Sample>): seq<Sample> {
    if samples == [] then [] else
      RunStartIsLongest(samples, 0);
      samples[RunStart(samples)..]
  }

  function JitterOf(samples: seq<Sample>): real {
    Rfc3550(CurrentRun(samples))
  }

  ghost predicate Tracks(jitter: real, prevRtt: real, prevSeq: nat, havePrev: bool, samples: seq<Sample>) {
    && jitter == JitterOf(samples)
    && havePrev == (samples != [])
    && (havePrev ==> samples[|samples| - 1] == Sample(prevSeq, prevRtt))
  }

  ghost predicate JitterAgrees(s: State) {
    Tracks(s.jitter, s.prevRtt, s.prevSeq, s.havePrev, SamplesIn(s.log))
  }

  /** One more sample extends the current run, or starts a new one. */
  lemma OneMoreRun(samples: seq<Sample>, x: Sample)
    ensures CurrentRun(samples + [x])
            == if samples != [] && x.seqNo == samples[|samples| - 1].seqNo + 1 then CurrentRun(samples) + [x] else [x]
    ensures var run := CurrentRun(samples);
            samples != [] ==> run != [] && run[|run| - 1] == samples[|samples| - 1]
  {
    var all, n := samples + [x], |samples|;
    assert all[..n] == samples;
    RunStartIsLongest(all, 0);
    if samples != [] {
      RunStartIsLongest(samples, 0);
      if x.seqNo == samples[n - 1].seqNo + 1 { assert RunStart(all) == RunStart(samples); }
    }
  }

  lemma OneMoreSample(samples: seq<Sample>, x: Sample)
    ensures JitterOf(samples + [x])
            == if samples != [] && x.seqNo == samples[|samples| - 1].seqNo + 1
               then Smoothed(JitterOf(samples), x.rtt, samples[|samples| - 1].rtt)
               else 0.0
  {
    OneMoreRun(samples, x);
    var run := CurrentRun(samples);
    assert (run + [x])[..|run|] == run;
  }

  lemma ReceiveJitter(cfg: Config, s: State, r: Response)
    requires JitterAgrees(s)
    ensures JitterAgrees(Receive(cfg, s, r))
  {
    if Matches(s.pending, r) {
      OneMoreSample(SamplesIn(s.log), Sample(r.seqNo, Seconds(r.recv - s.pending[r.seqNo])));
    }
  }

  lemma {:induction false} DrainJitter(cfg: Config, s: State, responses: seq<Response>)
    requires JitterAgrees(s)
    ensures JitterAgrees(Drain(cfg, s, responses))
    decreases |responses|
  {
    if responses == [] {
    } else {
      ReceiveJitter(cfg, s, responses[0]);
      DrainJitter(cfg, Receive(cfg, s, responses[0]), responses[1..]);
    }
  }

  /** The gauge equals the reference estimate over the history, in every reachable state: re-dials, panics
      and write failures leave the gauge and the samples alone. Whether the first echo after a re-dial
      extends the run or starts it over is Redial.RedialKeepsJitterIff. */
  lemma {:induction false} JitterIsHistory(cfg: Config, steps: seq<Step>)
    ensures JitterAgrees(Run(cfg, steps))
  {
    if steps == [] {
    } else {
      var n := |steps| - 1;
      JitterIsHistory(cfg, steps[..n]);
      NextJitterAgrees(cfg, Run(cfg, steps[..n]), steps[n]);
    }
  }

  lemma SweepJitter(cfg: Config, s: State, now: int, check: int, timeout: int)
    requires JitterAgrees(s)
    ensures JitterAgrees(Sweep(cfg, s, now, check, timeout))
  {
  }

  lemma SessionEndJitter(s: State, now: int, result: WriteResult)
    requires JitterAgrees(s)
    ensures JitterAgrees(FlushPending(s)) && JitterAgrees(Write(s, now, result))
  {
  }

  lemma NextJitterAgrees(cfg: Config, s: State, step: Step)
    requires JitterAgrees(s)
    ensures JitterAgrees(Next(cfg, s, step))
  {
    if step.Tick? && s.mode.Probing? {
      var t := step.input;
      DrainJitter(cfg, s, t.drained);
      SweepJitter(cfg, Drain(cfg, s, t.drained), t.now, t.check, Timeout(cfg, s.est));
      SessionEndJitter(DrainAndSweep(cfg, s, t), t.now, t.write);
    }
  }

  // ----- What the run contains -----

  lemma {:induction false} SamplesAreMatched(h: History)
    ensures forall x :: x in SamplesIn(h) ==> x.seqNo in MatchedIn(h)
  {
    if h.Start? {
    } else {
      SamplesAreMatched(h.past);
    }
  }

  lemma {:induction false} SpanOfRun(samples: seq<Sample>, k: nat, i: nat)
    requires k <= i < |samples| && ConsecutiveFrom(samples, k)
    ensures samples[i].seqNo == samples[k].seqNo + (i - k)
  {
    if i == k {
    } else {
      SpanOfRun(samples, k, i - 1);
    }
  }

  /** No lost, flushed, abandoned or pending probe lies between the first and the last sequence number
      the estimate is computed from: every number in between was matched. */
  lemma NoLossInsideRun(cfg: Config, steps: seq<Step>, n: nat)
    requires SamplesIn(Run(cfg, steps).log) != []
    requires var samples := SamplesIn(Run(cfg, steps).log);
             RunStart(samples) < |samples| && samples[RunStart(samples)].seqNo <= n <= samples[|samples| - 1].seqNo
    ensures var s := Run(cfg, steps);
            && n in MatchedIn(s.log) && n !in LostIn(s.log) && n !in FlushedIn(s.log) && n !in AbandonedIn(s.log)
            && n !in s.pending
  {
    var s := Run(cfg, steps);
    var samples := SamplesIn(s.log);
    var k := RunStart(samples);
    RunStartIsLongest(samples, k);
    SpanOfRun(samples, k, |samples| - 1);
    var i := k + (n - samples[k].seqNo);
    SpanOfRun(samples, k, i);
    SamplesAreMatched(s.log);
    assert samples[i] in samples;
    ExactlyOnce(cfg, steps);
    assert Fates(s, n) <= 1;
  }

  /** width * (15/16)^k, as RemainderIsGeometric shows. */
  function Remainder(width: real, k: nat): real {
    if k == 0 then width else 0.9375 * Remainder(width, k - 1)
  }

  lemma {:induction false} RemainderIsGeometric(width: real, k: nat)
    ensures Remainder(width, k) == width * Power(0.9375, k)
  {
    if k == 0 {
    } else {
      RemainderIsGeometric(width, k - 1);
      Reassociate(width, 0.9375, Power(0.9375, k - 1));
    }
  }

  /** With every RTT in [lo, hi] and k differences in the run, the estimate stays below
      (hi - lo)(1 - (15/16)^k). */
  lemma {:induction false} JitterBound(run: seq<Sample>, lo: real, hi: real)
    requires run != [] && lo <= hi
    requires forall i :: 0 <= i < |run| ==> lo <= run[i].rtt <= hi
    ensures 0.0 <= Rfc3550(run) <= hi - lo - Remainder(hi - lo, |run| - 1)
  {
    var n := |run| - 1;
    if n == 0 {
    } else {
      var prior := run[..n];
      assert forall i :: 0 <= i < n ==> prior[i] == run[i];
      JitterBound(prior, lo, hi);
      BoundStep(Rfc3550(prior), Remainder(hi - lo, n - 1), Abs(run[n].rtt - run[n - 1].rtt), hi - lo);
    }
  }

  lemma BoundStep(j: real, rest: real, d: real, width: real)
    requires 0.0 <= j <= width - rest && 0.0 <= d <= width
    ensures 0.0 <= j + (d - j) / 16.0 <= width - 0.9375 * rest
  {
  }

  /** What the bound says about a value of the gauge. */
  ghost predicate WithinBound(jitter: real, run: seq<Sample>, lo: real, hi: real) {
    if run == [] then jitter == 0.0 else 0.0 <= jitter <= hi - lo - Remainder(hi - lo, |run| - 1)
  }

  lemma BoundOfRun(samples: seq<Sample>, lo: real, hi: real)
    requires lo <= hi && forall x :: x in samples ==> lo <= x.rtt <= hi
    ensures WithinBound(JitterOf(samples), CurrentRun(samples), lo, hi)
  {
    if CurrentRun(samples) != [] {
      RunIsOfSamples(samples);
      JitterBound(CurrentRun(samples), lo, hi);
    }
  }

  lemma RunIsOfSamples(samples: seq<Sample>)
    requires samples != []
    ensures forall i :: 0 <= i < |CurrentRun(samples)| ==> CurrentRun(samples)[i] in samples
  {
    RunStartIsLongest(samples, 0);
  }

  /** The bound on the gauge itself, in every reachable state. */
  lemma GaugeBound(cfg: Config, steps: seq<Step>, lo: real, hi: real)
    requires lo <= hi
    requires forall x :: x in SamplesIn(Run(cfg, steps).log) ==> lo <= x.rtt <= hi
    ensures var s := Run(cfg, steps); WithinBound(s.jitter, CurrentRun(SamplesIn(s.log)), lo, hi)
  {
    JitterIsHistory(cfg, steps);
    BoundOfRun(SamplesIn(Run(cfg, steps).log), lo, hi);
  }
}
