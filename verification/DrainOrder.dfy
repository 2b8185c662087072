/** The order in which echoes count: a tick records the samples of the queued responses in queue order, each
    probe by its first matching response, and over a session the samples follow the order in which the
    reader took the datagrams off the socket. */
module DrainOrder {
  import opened Wire
  import opened Units
  import opened ProbeLoop
  import opened Timing
  import opened Resolution
  import opened Jitter
  import Reader

  // ----- One drain -----

  /** Response i matches a pending probe, and none before it matches the same probe. */
  ghost predicate FirstMatch(pending: map<nat, int>, responses: seq<Response>, i: nat)
    requires i < |responses|
  {
    Matches(pending, responses[i]) && !Answers(pending, responses[..i], responses[i].seqNo)
  }

  function SampleOf(pending: map<nat, int>, r: Response): Sample
    requires r.seqNo in pending
  {
    Sample(r.seqNo, Seconds(r.recv - pending[r.seqNo]))
  }

  /** The samples of the first matching responses, in the order of the responses. */
  ghost function FirstSamples(pending: map<nat, int>, responses: seq<Response>): seq<Sample> {
    if responses == [] then []
    else
      var n := |responses| - 1;
      var before := FirstSamples(pending, responses[..n]);
      if FirstMatch(pending, responses, n) then before + [SampleOf(pending, responses[n])] else before
  }

  lemma {:induction false} DrainOneMore(cfg: Config, s: State, responses: seq<Response>, r: Response)
    ensures Drain(cfg, s, responses + [r]) == Receive(cfg, Drain(cfg, s, responses), r)
    decreases |responses|
  {
    var all := responses + [r];
    if responses == [] {
      assert all[0] == r && all[1..] == [];
      assert Drain(cfg, Receive(cfg, s, r), []) == Receive(cfg, s, r);
    } else {
      assert all[0] == responses[0] && all[1..] == responses[1..] + [r];
      DrainOneMore(cfg, Receive(cfg, s, responses[0]), responses[1..], r);
    }
  }

  /** After some responses a further one matches iff it matched before and they do not answer its probe. */
  lemma StillMatches(cfg: Config, s: State, responses: seq<Response>, r: Response)
    ensures var t := Drain(cfg, s, responses);
            && (Matches(t.pending, r) <==> Matches(s.pending, r) && !Answers(s.pending, responses, r.seqNo))
            && (Matches(t.pending, r) ==> t.pending[r.seqNo] == s.pending[r.seqNo])
  {
    DrainShrinks(cfg, s, responses);
    if r.seqNo in s.pending {
      DrainResolvesAnswered(cfg, s, r.seqNo, responses);
    }
  }

  /** A drain appends the samples of the first matching responses, in queue order. */
  lemma {:induction false} DrainRecordsInOrder(cfg: Config, s: State, responses: seq<Response>)
    ensures SamplesIn(Drain(cfg, s, responses).log) == SamplesIn(s.log) + FirstSamples(s.pending, responses)
    decreases |responses|
  {
    if responses == [] {
    } else {
      var n := |responses| - 1;
      var prior, r := responses[..n], responses[n];
      assert responses == prior + [r];
      DrainRecordsInOrder(cfg, s, prior);
      DrainOneMore(cfg, s, prior, r);
      StillMatches(cfg, s, prior, r);
    }
  }

  lemma TickEndRecordsNoSample(s: State, now: int, result: WriteResult)
    ensures SamplesIn(FlushPending(s).log) == SamplesIn(s.log) == SamplesIn(Write(s, now, result).log)
  {
  }

  /** So does a whole tick, with everything else that it does. */
  lemma TickRecordsInOrder(cfg: Config, s: State, t: TickInput)
    requires s.mode.Probing?
    ensures SamplesIn(Next(cfg, s, Tick(t)).log) == SamplesIn(s.log) + FirstSamples(s.pending, t.drained)
  {
    DrainRecordsInOrder(cfg, s, t.drained);
    TickEndRecordsNoSample(DrainAndSweep(cfg, s, t), t.now, t.write);
  }

  // ----- The order, response by response -----

  lemma {:induction false} FirstSampleAt(pending: map<nat, int>, responses: seq<Response>, i: nat, n: nat)
    requires i < n <= |responses| && FirstMatch(pending, responses, i)
    ensures var k, all := |FirstSamples(pending, responses[..i])|, FirstSamples(pending, responses[..n]);
            k < |all| && all[k] == SampleOf(pending, responses[i])
  {
    var m := n - 1;
    assert responses[..n][..m] == responses[..m] && responses[..n][..i] == responses[..i];
    if i == m {
    } else {
      FirstSampleAt(pending, responses, i, m);
    }
  }

  lemma {:induction false} MoreResponses(pending: map<nat, int>, responses: seq<Response>, i: nat, j: nat)
    requires i <= j <= |responses|
    ensures |FirstSamples(pending, responses[..i])| <= |FirstSamples(pending, responses[..j])|
  {
    if i == j {
    } else {
      assert responses[..j][..j - 1] == responses[..j - 1];
      MoreResponses(pending, responses, i, j - 1);
    }
  }

  /** One sample stands before another, both from an index on. */
  ghost predicate Before(samples: seq<Sample>, from: nat, x: Sample, y: Sample) {
    exists a, b :: from <= a < b < |samples| && samples[a] == x && samples[b] == y
  }

  lemma BeforeAfterPrefix(earlier: seq<Sample>, samples: seq<Sample>, x: Sample, y: Sample)
    requires Before(samples, 0, x, y)
    ensures Before(earlier + samples, |earlier|, x, y)
  {
    var a, b :| 0 <= a < b < |samples| && samples[a] == x && samples[b] == y;
    var all := earlier + samples;
    assert all[|earlier| + a] == x && all[|earlier| + b] == y;
  }

  lemma FirstSamplesInQueueOrder(pending: map<nat, int>, responses: seq<Response>, i: nat, j: nat)
    requires i < j < |responses| && FirstMatch(pending, responses, i) && FirstMatch(pending, responses, j)
    ensures Before(FirstSamples(pending, responses), 0, SampleOf(pending, responses[i]), SampleOf(pending, responses[j]))
  {
    var n := |responses|;
    assert responses[..n] == responses;
    FirstSampleAt(pending, responses, i, n);
    FirstSampleAt(pending, responses, j, n);
    FirstSampleAt(pending, responses, i, i + 1);
    MoreResponses(pending, responses, i + 1, j);
  }

  /** If the first matching response of one probe is queued before that of another, the tick records their
      samples in that order, each with the RTT of that very response. */
  lemma QueueOrderIsSampleOrder(cfg: Config, s: State, t: TickInput, i: nat, j: nat)
    requires s.mode.Probing? && i < j < |t.drained|
    requires FirstMatch(s.pending, t.drained, i) && FirstMatch(s.pending, t.drained, j)
    ensures Before(SamplesIn(Next(cfg, s, Tick(t)).log), |SamplesIn(s.log)|,
                   SampleOf(s.pending, t.drained[i]), SampleOf(s.pending, t.drained[j]))
  {
    TickRecordsInOrder(cfg, s, t);
    FirstSamplesInQueueOrder(s.pending, t.drained, i, j);
    BeforeAfterPrefix(SamplesIn(s.log), FirstSamples(s.pending, t.drained),
                      SampleOf(s.pending, t.drained[i]), SampleOf(s.pending, t.drained[j]));
  }

  // ----- Over a session, from the socket on -----

  /** The first sequence is what is left of the second when some elements are dropped. */
  ghost predicate Subsequence(few: seq<nat>, many: seq<nat>)
    decreases |many|
  {
    few == []
    || (many != []
        && var n := |many| - 1;
           || Subsequence(few, many[..n])
           || (few[|few| - 1] == many[n] && Subsequence(few[..|few| - 1], many[..n])))
  }

  lemma {:induction false} SubsequencesJoin(a: seq<nat>, b: seq<nat>, c: seq<nat>, d: seq<nat>)
    requires Subsequence(a, b) && Subsequence(c, d)
    ensures Subsequence(a + c, b + d)
    decreases |d|
  {
    if d == [] {
      assert a + c == a && b + d == b;
    } else {
      var n := |d| - 1;
      assert (b + d)[..|b| + n] == b + d[..n];
      if c == [] {
        SubsequencesJoin(a, b, c, d[..n]);
      } else if Subsequence(c, d[..n]) {
        SubsequencesJoin(a, b, c, d[..n]);
      } else {
        SubsequencesJoin(a, b, c[..|c| - 1], d[..n]);
        assert (a + c)[..|a| + |c| - 1] == a + c[..|c| - 1];
      }
    }
  }

  function NumbersOf(responses: seq<Response>): seq<nat> {
    seq(|responses|, i requires 0 <= i < |responses| => responses[i].seqNo)
  }

  function SampleNumbers(samples: seq<Sample>): seq<nat> {
    seq(|samples|, i requires 0 <= i < |samples| => samples[i].seqNo)
  }

  lemma {:induction false} FirstSamplesFollow(pending: map<nat, int>, responses: seq<Response>)
    ensures Subsequence(SampleNumbers(FirstSamples(pending, responses)), NumbersOf(responses))
  {
    if responses == [] {
    } else {
      var n := |responses| - 1;
      var before, all := FirstSamples(pending, responses[..n]), FirstSamples(pending, responses);
      FirstSamplesFollow(pending, responses[..n]);
      assert NumbersOf(responses)[..n] == NumbersOf(responses[..n]);
      if FirstMatch(pending, responses, n) {
        assert SampleNumbers(all)[..|all| - 1] == SampleNumbers(before);
      }
    }
  }

  /** What the loop takes from the channel over some steps. */
  function DrainedIn(cfg: Config, s: State, steps: seq<Step>): seq<Response> {
    if steps == [] then []
    else
      var n := |steps| - 1;
      var before, step := DrainedIn(cfg, s, steps[..n]), steps[n];
      if step.Tick? && RunFrom(cfg, s, steps[..n]).mode.Probing? then before + step.input.drained else before
  }

  ghost predicate InOrder(s: State, t: State, responses: seq<Response>) {
    var earlier, samples := SamplesIn(s.log), SamplesIn(t.log);
    earlier <= samples && Subsequence(SampleNumbers(samples[|earlier|..]), NumbersOf(responses))
  }

  lemma NoSampleStaysInOrder(s: State, t: State, next: State, responses: seq<Response>)
    requires InOrder(s, t, responses) && SamplesIn(next.log) == SamplesIn(t.log)
    ensures InOrder(s, next, responses)
  {
  }

  lemma MoreSamplesInOrder(s: State, t: State, next: State, responses: seq<Response>,
                           pending: map<nat, int>, more: seq<Response>)
    requires InOrder(s, t, responses) && SamplesIn(next.log) == SamplesIn(t.log) + FirstSamples(pending, more)
    ensures InOrder(s, next, responses + more)
  {
    var k, new' := |SamplesIn(s.log)|, FirstSamples(pending, more);
    var old' := SamplesIn(t.log)[k..];
    FirstSamplesFollow(pending, more);
    SubsequencesJoin(SampleNumbers(old'), NumbersOf(responses), SampleNumbers(new'), NumbersOf(more));
    assert SamplesIn(next.log)[k..] == old' + new';
    assert SampleNumbers(old' + new') == SampleNumbers(old') + SampleNumbers(new');
    assert NumbersOf(responses + more) == NumbersOf(responses) + NumbersOf(more);
  }

  lemma IdleRecordsNoSample(cfg: Config, s: State, step: Step)
    requires !(step.Tick? && s.mode.Probing?)
    ensures SamplesIn(Next(cfg, s, step).log) == SamplesIn(s.log)
  {
  }

  /** Over any steps the samples recorded are of some of the responses taken, in the order taken. */
  lemma {:induction false} SamplesFollowTheChannel(cfg: Config, s: State, steps: seq<Step>)
    ensures InOrder(s, RunFrom(cfg, s, steps), DrainedIn(cfg, s, steps))
  {
    if steps == [] {
      assert SampleNumbers(SamplesIn(s.log)[|SamplesIn(s.log)|..]) == [];
    } else {
      var n := |steps| - 1;
      SamplesFollowTheChannel(cfg, s, steps[..n]);
      var u := RunFrom(cfg, s, steps[..n]);
      if steps[n].Tick? && u.mode.Probing? {
        TickRecordsInOrder(cfg, u, steps[n].input);
        MoreSamplesInOrder(s, u, Next(cfg, u, steps[n]), DrainedIn(cfg, s, steps[..n]), u.pending, steps[n].input.drained);
      } else {
        IdleRecordsNoSample(cfg, u, steps[n]);
        NoSampleStaysInOrder(s, u, Next(cfg, u, steps[n]), DrainedIn(cfg, s, steps[..n]));
      }
    }
  }

  lemma SubsequenceOfMore(few: seq<nat>, responses: seq<Response>, more: seq<Response>)
    requires Subsequence(few, NumbersOf(responses))
    ensures Subsequence(few, NumbersOf(responses + more))
  {
    SubsequencesJoin(few, NumbersOf(responses), [], NumbersOf(more));
    assert few + [] == few;
    assert NumbersOf(responses + more) == NumbersOf(responses) + NumbersOf(more);
  }

  lemma TakenWereRead(auth: Auth, actions: seq<Reader.Action>) returns (rest: seq<Response>)
    requires Reader.Possible(auth, Reader.SPAWNED, actions) && Reader.Ongoing(actions)
    ensures Reader.ValidReads(auth, actions) == Reader.ActAll(auth, Reader.SPAWNED, actions).taken + rest
  {
    var r := Reader.ActAll(auth, Reader.SPAWNED, actions);
    Reader.ReaderLives(auth, actions);
    Reader.ChannelOverRuns(auth, actions);
    rest := r.queue + Reader.Held(r);
  }

  /** Loop and reader together: whatever a session has drained is what its reader has handed over, so the
      samples it records are of some of the valid datagrams read, in the order in which they were read. */
  lemma SamplesFollowTheSocket(cfg: Config, s: State, steps: seq<Step>, actions: seq<Reader.Action>)
    requires Reader.Possible(cfg.auth, Reader.SPAWNED, actions) && Reader.Ongoing(actions)
    requires DrainedIn(cfg, s, steps) == Reader.ActAll(cfg.auth, Reader.SPAWNED, actions).taken
    ensures InOrder(s, RunFrom(cfg, s, steps), Reader.ValidReads(cfg.auth, actions))
  {
    SamplesFollowTheChannel(cfg, s, steps);
    var rest := TakenWereRead(cfg.auth, actions);
    InOrderOfMore(s, RunFrom(cfg, s, steps), DrainedIn(cfg, s, steps), rest);
  }

  lemma InOrderOfMore(s: State, t: State, responses: seq<Response>, more: seq<Response>)
    requires InOrder(s, t, responses)
    ensures InOrder(s, t, responses + more)
  {
    SubsequenceOfMore(SampleNumbers(SamplesIn(t.log)[|SamplesIn(s.log)|..]), responses, more);
  }
}
