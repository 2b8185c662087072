# Verification model of the UDP link prober

This project models the probing engine of `internal/prober` in Dafny and proves what it promises: the
accounting of probes, the adaptive timeout, the jitter and link gauges, the echo server's rate limit, and
the protocol that client, network and server form together.

A client probes one target over UDP. Every interval it drains the echoes that have come in, sweeps the
probes that are older than the timeout, now and then re-dials, and otherwise writes one probe with the next
sequence number. It keeps a map of pending probes, four counters and gauges, a jitter estimate, a miss
counter and an RTO estimator, and all but the pending map survive re-dials and panic restarts.

## How the model is built

| file | what it holds |
|---|---|
| `Units.dfy` | nanoseconds, seconds, small arithmetic |
| `Estimator.dfy`, `EstimatorRuns.dfy` | `AdaptiveStats` as a class and as functions; its guarantees over any run |
| `Wire.dfy` | the datagram, its checks, and the send buffer that is overwritten for each probe |
| `RateLimiter.dfy` | the limiter as a class, proved against the trace of its calls; the exact bound over any interval |
| `EchoServer.dfy` | the echo loop over one reused read buffer |
| `ChargeOrder.dfy` | what it costs that the server charges the limiter before it validates |
| `ProbeLoop.dfy` | the probe loop as a state machine: the functions every other file speaks about |
| `ProbeClient.dfy` | the probe loop in the program's form, fields updated in place, proved against `ProbeLoop` |
| `Conservation.dfy`, `Resolution.dfy` | what becomes of every probe, over whole runs and at one tick |
| `DrainOrder.dfy` | the order in which a tick, and a session with its reader, counts echoes |
| `Redial.dfy` | what a re-dial does to the probes in flight and to the jitter estimate |
| `LinkState.dfy`, `Jitter.dfy` | `link_up`, the miss counter, the estimator and the jitter gauge as functions of history |
| `Outage.dfy` | when `link_up` falls while no echo comes in |
| `WriteFailures.dfy` | `link_up` while writes keep failing, in one session and over many, and when it can come back |
| `Timing.dfy`, `AdaptiveLoop.dfy` | what the clocks guarantee: probes in flight, recordable RTTs, no losses on a prompt link |
| `Recovery.dfy` | recovery of the adaptive timeout after a latency jump, and its exact limit |
| `Reader.dfy` | the reader goroutine and the response channel |
| `LinkSystem.dfy` | client, network and server composed |
| `Exceptions.dfy` | runs that the documentation rules out and the code allows |

A run is a sequence of steps chosen by the environment: a dial succeeds or fails, a tick fires with some
drained responses and some outcome of the write (success, failure, panic), or the context is cancelled. The
responses are arbitrary unless a statement says otherwise, so they cover loss, duplication, reordering,
delay and forgery. The state carries a history of events which the program does not keep; the results are
statements about that history. Clocks are integers in nanoseconds, the estimator and the jitter use reals in
place of 64-bit floats, sequence numbers are unbounded (statements about datagrams require them to fit in 64
bits), the tag function of a keyed secret is uninterpreted, and the wall clock and the monotonic clock of the
client are one clock. The limiter's zero window is "no window yet", since the distance to Go's zero time is
far above a second. A panic is placed at `conn.Write`.

## Where code and documentation differ

The model follows the code.

- Re-dialing does not wait for an empty pending set, as internal/prober/prober.go:46-51 and
  internal/prober/client.go:134-137 say; it flushes what is pending as timed out. It abandons nothing exactly
  when every pending probe is answered or overdue at that very tick (`RedialAbandonsNothingIff`). Some run
  that keeps to the timer abandons a probe exactly when the interval is shorter than the reconnect interval
  and the timeout is adaptive or at least the interval (`SomeRunAbandonsIff`, with the runs in its proof).
  So `link_probes_timed_out_total` also counts probes that were not lost on the wire.
- A re-dial can reset the jitter, which internal/prober/client.go:148-151 rules out: the first probe matched
  after it extends the estimate exactly when the latest sample before was of the last probe then sent and
  this one is the next (`FirstEchoExtendsIff`); `RedialResetsJitter` is a run in which it does not.
- The first measurement of RFC 6298 is recognised by SRTT being zero. `MatchesRfc6298` gives the exact
  condition under which that agrees with the standard, `ZeroFirstDiffers` two samples for which it does not.
- The 3 s cap does not bound the timeout, because the floor of twice SRTT is applied after it
  (`ClampBounds`), and it does not bound the RTTs that are recorded, as README.md:208-216 of the repository
  says (`RttAboveCapIsRecorded`). An RTT above any value can be recorded at a tick within some gap exactly
  when a probe in flight will by then be older than that (`RttAboveIff`); over whole runs `RecordedRttBound`
  holds; when an echo counts is `TickResolution`.
- The backoff (internal/prober/adaptive.go:46-50) makes the loop recover from some latency jumps, not from
  all. With ticks exactly one interval apart it recovers if and only if the new RTT is at most the first
  whole number of intervals above max(3 s, 2*SRTT), for the SRTT measured before the jump
  (`PeriodicRecoversIff`). With ticks at any times it does if the RTT is at most a nanosecond above
  max(3 s, 2*SRTT) (`RecoversFromJump` on a grid of one nanosecond) and does not if it is above that by more
  than the gap between ticks (`NothingMatchedAboveCap`); between the two it depends on when the ticks come.
- `link_up` can be 1 while writes keep failing, although README.md:104 of the repository says that persistent
  send failures make it 0. There are two ways.
  Within a session, a late echo raises it (`LinkUpDespiteWriteFailures`): in a streak of three or more
  failures it is 1 exactly when an echo has come in since the third and fewer than three probes have been
  lost since the last echo (`LinkInStreak`), and once it is 0 it can come back without another successful
  write exactly when a probe is still in flight (`RaisedWithoutWriteIff`).
  Over many sessions, the failure count starts again with each: from a re-dial with the link up, with every
  dial succeeding, every write failing and ticks one interval apart, the link goes down, for good, exactly
  when the reconnect interval is above three probe intervals (`PersistentFailuresIff`,
  `LinkUpThroughFailures`); with ticks at most a gap apart it goes down when the reconnect interval is above
  three gaps (`FailuresLowerLink`). Writes that always panic never lower it (`PanicsNeverLowerLink`).
- The limiter charges every datagram of an allowlisted source before any validation
  (`VerdictsIgnoreContents`), although internal/prober/server.go:28 and :36 speak of validated and echoed
  probes: a cap's worth of empty datagrams gets a well-formed one refused (`MalformedStarveWellFormed`).
  Against a server that validates first, the replies are the same for all arrivals of at most n datagrams a
  second exactly when n is within both caps (`OrderIsInvisibleIff`). The caps hold per window, not for every
  second as those lines say: two caps can pass within one closed second (`MostIsAttained`).

## Model

| member | source | states |
|---|---|---|
| Estimator.AdaptiveStats.constructor | internal/prober/adaptive.go:19-25 | a fresh estimator has no SRTT or RTTVAR, the base timeout as RTO and no timeouts |
| Estimator.AdaptiveStats.Update | internal/prober/adaptive.go:33-43 | the in-place update is the smoothing function of the old state, with RTTVAR computed from the old SRTT |
| Estimator.AdaptiveStats.Backoff | internal/prober/adaptive.go:53-58 | the in-place backoff counts the timeout and doubles only from the second in a row |
| Estimator.AdaptiveStats.CurrentRTO | internal/prober/adaptive.go:66-70 | the clamped timeout of the current state in nanoseconds, leaving the state alone |
| EstimatorRuns.Hull | internal/prober/adaptive.go:33-43 | over any run with samples in [lo, hi], SRTT stays in [lo, hi] and RTTVAR at most max(hi/2, hi-lo) |
| EstimatorRuns.SteadyLink | internal/prober/adaptive.go:33-43 | after n equal samples R: SRTT = R and RTO = R + max(1 ms, 2R(3/4)^(n-1)) |
| EstimatorRuns.SpreadIsGeometric | internal/prober/adaptive.go:39 | the RTTVAR term of a steady link is a geometric sequence with ratio 3/4 |
| EstimatorRuns.MatchesRfc6298 | internal/prober/adaptive.go:27-41 | after any run of measurements and timeouts SRTT and RTTVAR are those of sections 2.2 and 2.3 of RFC 6298 for the measurements iff the first is positive or none is, and the RTO set by the last measurement always follows from them as there |
| EstimatorRuns.ZeroFirstDiffers | internal/prober/adaptive.go:35-41 | measurements of 0 s and 1 s give an SRTT of 1 s, and of 1/8 s by the standard |
| EstimatorRuns.BackoffClosedForm | internal/prober/adaptive.go:45-58 | after any run the RTO is the last measured one doubled once per consecutive timeout but the first, capped at 3 s, and positive |
| EstimatorRuns.DoublingsArePowers | internal/prober/adaptive.go:53-57 | the doubling in that closed form is the power 2^(c-1) for c timeouts in a row |
| EstimatorRuns.Saturation | internal/prober/adaptive.go:42-58 | thirteen consecutive timeouts after any measurement put the RTO at exactly 3 s |
| EstimatorRuns.ClampBounds | internal/prober/adaptive.go:60-70 | the timeout in force is between max(200 ms, 2 SRTT) and max(3 s, 2 SRTT), and within 3 s iff 2 SRTT is |
| EstimatorRuns.TimeoutInForce | internal/prober/adaptive.go:66-70 | in every case the timeout is the RTO in nanoseconds where it lies between max(200 ms, 2 SRTT) and 3 s, else 3 s above, else that floor |
| EstimatorRuns.TimeoutAfterTwo | internal/prober/adaptive.go:33-70 | after RTTs of 100 ms and 300 ms the timeout is 475 ms |
| EstimatorRuns.CapOverRuns | internal/prober/adaptive.go:66-69 | over any run with no sample above hi the timeout stays within [200 ms, max(3 s, 2 hi)], so within 3 s when hi is at most 1.5 s |
| EstimatorRuns.BackoffNeverShortens | internal/prober/adaptive.go:53-70 | a backoff never shortens the timeout in force, and lowers the stored RTO exactly when a second timeout finds it above the cap |
| Wire.LittleEndianRoundTrip | internal/prober/client.go:528-530 | reading back a little-endian word returns it |
| Wire.LittleEndianInverse | internal/prober/client.go:327-328 | writing back the word read from bytes returns the bytes |
| Wire.DecodeEncode | internal/prober/client.go:526-534 | decoding an encoded probe returns it, for all 64-bit numbers and timestamps, keyed or not |
| Wire.EncodeDecode | internal/prober/client.go:316-333 | any datagram that passes the size, magic and tag checks is the encoding of what it decodes to |
| Wire.FrameLayout | internal/prober/client.go:526-534 | the datagram has 24 bytes, or 32 with a secret: the eight magic bytes, from byte 8 the digits of the sequence number and from byte 16 those of the timestamp in base 256, lowest first, and from byte 24 the tag of number and timestamp |
| Wire.SignedRoundTrip | internal/prober/server.go:206 | a timestamp read back as a signed word is the instant it was made from |
| Wire.PutWord | internal/prober/client.go:528-530 | a word is written in place little-endian and nothing else in the buffer changes |
| Wire.PutBytes | internal/prober/client.go:527 | bytes are copied in place and nothing else in the buffer changes |
| Wire.Uint64 | internal/prober/server.go:199-200 | a word is read from the buffer little-endian |
| Wire.TagMatches | internal/prober/prober.go:125-128 | the tag bytes in the buffer are compared with the expected tag, all of them |
| Wire.FillPayload | internal/prober/client.go:526-534 | the reused buffer holds exactly the encoding of the new probe, whatever it held before |
| RateLimiter.Limiter.constructor | internal/prober/server.go:74-76 | a new limiter has no window and no charges |
| RateLimiter.Limiter.Allow | internal/prober/server.go:80-101 | the answer is the one specified by the trace of calls, the counters stay those of the trace, and the call is added to it |
| RateLimiter.WindowWithinCap | internal/prober/server.go:92-100 | in every window the admissions stay within the total cap and each address within its own, and a refusal is not charged |
| RateLimiter.TotalIsSumOfAddresses | internal/prober/server.go:98-99 | the total counter is the sum of the per-address counters |
| RateLimiter.AnyIntervalBound | internal/prober/server.go:80-101 | over any closed interval of L seconds at most ceil(L)+1 caps of packets are admitted, in total and per address |
| RateLimiter.ChargedToWindows | internal/prober/server.go:84-100 | every admission in an interval is charged to a window counted for it, and no window beyond its cap |
| RateLimiter.WindowsApart | internal/prober/server.go:84-85 | window starts are at least one second apart |
| RateLimiter.OpenersAreCharged | internal/prober/server.go:84-99 | counting everybody, a window that starts before an interval has spent one admission outside it |
| RateLimiter.NeverMoreThanMost | internal/prober/server.go:80-101 | over any closed interval at most MostIn packets are admitted: (ceil(L)+1) caps, less one if L is not whole and the windows' openers count themselves, and none if a cap is below 1; an address is bound by the smaller cap |
| RateLimiter.MostIsAttained | internal/prober/server.go:80-101 | for all caps, whether everybody or one address is counted, and every interval, some run admits exactly MostIn packets in it |
| RateLimiter.RefusedOnlyUnderLoad | internal/prober/server.go:92-97 | a packet is refused only if a cap's worth was admitted in the second that ends with it, in total or from its address |
| EchoServer.PacketServer.constructor | internal/prober/server.go:155-156 | the server starts with a fresh limiter and read buffer and nothing received |
| EchoServer.PacketServer.ReadFrom | internal/prober/server.go:159 | a datagram fills the front of the reused buffer, truncated to its size |
| EchoServer.PacketServer.Validate | internal/prober/server.go:187-212 | checking size, magic, words, tag and skew in the buffer decides whether the bytes read decode to a fresh probe |
| EchoServer.PacketServer.Respond | internal/prober/server.go:183-216 | what follows the verdict: counted and echoed iff admitted and well-formed |
| EchoServer.PacketServer.ServeOne | internal/prober/server.go:158-217 | one datagram takes the server to the specified next state |
| EchoServer.PacketServer.ServePacketConn | internal/prober/server.go:148-217 | the loop over any arrivals yields the specified trace, counters and replies |
| EchoServer.TruncationIsHarmless | internal/prober/server.go:16-18 | a datagram cut off by the read buffer is refused exactly as the whole one is |
| EchoServer.ReplayHorizon | internal/prober/server.go:203-211 | a keyed datagram passes exactly within 30 s of its timestamp either way, so never at moments more than 60 s apart |
| EchoServer.OpenIgnoresTime | internal/prober/server.go:187-197 | without a secret a datagram passes iff it has 24 bytes and the magic header, whatever its timestamp and the clock |
| EchoServer.KeyedProbeWindow | internal/prober/server.go:203-211 | with a secret a probe stamped at any instant passes iff the server's clock is within 30 s of that instant, either way |
| EchoServer.ForeignIsInvisible | internal/prober/server.go:180-186 | the limiter's trace, the counters and the replies are those for the arrivals from allowlisted sources alone |
| EchoServer.LimiterSeesAllowed | internal/prober/server.go:180-186 | the limiter is asked once for every datagram of an allowlisted source, in order of arrival, and for no other |
| EchoServer.RepliesAreEchoes | internal/prober/server.go:158-216 | every reply returns unchanged, to its sender, a well-formed datagram of an allowlisted source, and the counter per address is its number of replies |
| EchoServer.EchoRateBound | internal/prober/server.go:80-101 | the replies in any interval are at most what the limiter can admit in an interval of that length |
| EchoServer.VerdictsIgnoreContents | internal/prober/server.go:183-212 | the limiter's verdicts and charges depend only on sources and times, not on what the datagrams hold |
| ChargeOrder.MalformedStarveWellFormed | internal/prober/server.go:183-196 | for all caps of at least 1, a cap's worth of empty datagrams from an allowlisted source gets a well-formed one refused that would be echoed without them |
| ChargeOrder.OrderIsInvisibleIff | internal/prober/server.go:26-36 | the replies equal those of a server that validates before charging, for all arrivals of at most n datagrams in any second, iff n is within both caps |
| ProbeClient.Prober.constructor | internal/prober/client.go:168-174 | the state of a target before its first dial |
| ProbeClient.Prober.UpdateJitter | internal/prober/client.go:449-454 | the in-place jitter update, with the previous sample replaced |
| ProbeClient.Prober.Accept | internal/prober/client.go:423-462 | a matching response resolves its probe and updates every estimate as specified |
| ProbeClient.Prober.Receive | internal/prober/client.go:411-462 | any response, known or not, takes the loop to the specified state |
| ProbeClient.Prober.Drain | internal/prober/client.go:408-466 | draining the channel is receiving its responses in order |
| ProbeClient.Prober.RemoveOverdue | internal/prober/client.go:469-480 | for every iteration order over the map exactly the overdue probes go, each counted once, and the rest keep their send times |
| ProbeClient.Prober.ShrinkPending | internal/prober/client.go:486-492 | reallocating the map does not change what is pending |
| ProbeClient.Prober.Sweep | internal/prober/client.go:468-499 | the sweep, its single backoff and the link check take the loop to the specified state |
| ProbeClient.Prober.FlushEach | internal/prober/client.go:513-517 | flushing probe by probe counts each pending probe once and empties the map |
| ProbeClient.Prober.FlushForReconnect | internal/prober/client.go:501-519 | a re-dial counts what is pending as timed out and leaves misses and link_up alone |
| ProbeClient.Prober.RecoverPanic | internal/prober/client.go:359-375 | a recovered panic ends the session with the same accounting as a re-dial |
| ProbeClient.Prober.OnWriteError | internal/prober/client.go:540-553 | a failed write consumes no sequence number and lowers link_up exactly at the third in a row |
| ProbeClient.Prober.OnWritten | internal/prober/client.go:554-559 | a written probe consumes the next number and is registered with the tick's time |
| ProbeClient.Prober.Send | internal/prober/client.go:521-559 | the datagram written is the encoding of the next number and the tick's time; the rest follows the write's outcome |
| ProbeClient.Prober.OnTick | internal/prober/client.go:380-560 | one tick takes the loop to the specified state, with the timeout read before the drain |
| ProbeClient.Prober.OnCancel | internal/prober/client.go:369-375 | cancellation drops in-flight probes from the gauge without counting timeouts |
| ProbeClient.Prober.OnDial | internal/prober/client.go:178-209 | a failed dial lowers link_up; a successful one starts a session with nothing pending |
| ProbeClient.Prober.RunEchoLoop | internal/prober/client.go:253-561 | a session runs the state machine until it ends, and its datagrams are those of the run |
| ProbeClient.Prober.ProbeTarget | internal/prober/client.go:168-229 | the life of a target, sessions and pauses, is a run of the state machine |
| ProbeClient.EndedIsFinal | internal/prober/client.go:209-212 | nothing happens after the target's goroutine has ended |
| Conservation.ExactlyOnce | internal/prober/client.go:359-375 | in every reachable state each probe written is exactly one of matched, lost, flushed, abandoned or pending, and every counter and the gauge agree with those sets |
| Conservation.Balance | internal/prober/client.go:508-519 | sent = rtt_count + timed_out + inflight while the target is probed, nothing in flight outside a session, and only cancellation leaves probes uncounted |
| Conservation.EndsOnlyOnCancellation | internal/prober/client.go:174-229 | a target ends iff it is cancelled, whatever dials, writes, re-dials and panics happen |
| Resolution.DrainResolvesAnswered | internal/prober/client.go:411-423 | the drain resolves exactly the probes whose own timestamp a queued response echoes |
| Resolution.SweepResolution | internal/prober/client.go:408-480 | when a tick decides between re-dialing and writing, a pending probe is matched iff answered, lost iff unanswered and overdue, and else still pending |
| Resolution.TickResolution | internal/prober/client.go:408-560 | over a whole tick a pending probe is matched iff answered, lost iff unanswered and overdue, flushed iff neither and the tick re-dials or its write panics, and pending with its send time iff neither and the session goes on |
| DrainOrder.TickRecordsInOrder | internal/prober/client.go:408-455 | a tick appends exactly the samples of the first matching response of each probe, in queue order, with the RTT of that response |
| DrainOrder.QueueOrderIsSampleOrder | internal/prober/client.go:408-455 | if one probe's first matching response is queued before another's, its sample is recorded before |
| DrainOrder.SamplesFollowTheChannel | internal/prober/client.go:408-455 | over any steps the samples recorded are of some of the responses taken from the channel, in the order taken |
| DrainOrder.SamplesFollowTheSocket | internal/prober/client.go:269-455 | with the reader, the samples of a session are of some of the valid datagrams read, in the order in which they were read |
| Redial.RedialAbandonsNothingIff | internal/prober/client.go:501-519 | a re-dial abandons nothing exactly when every pending probe is answered or overdue at that tick |
| Redial.ShortTimeoutAbandonsNothing | internal/prober/client.go:501-519 | on a run that keeps to the timer a re-dial abandons nothing while the timeout in force is shorter than the interval |
| Redial.SomeRunAbandonsIff | internal/prober/prober.go:46-51 | for every valid configuration, some run with a clock that never runs backwards and ticks at least an interval apart abandons a probe at a re-dial iff the interval is below the reconnect interval and the timeout is adaptive or at least the interval |
| Redial.RedialKeepsJitterIff | internal/prober/client.go:147-158 | after a re-dial the echo of the new session's first probe, received right after the tick that sent it, extends the jitter's run iff the latest sample is of the last probe sent before, and otherwise resets the jitter to 0 |
| Redial.FirstEchoExtendsIff | internal/prober/client.go:147-158 | whichever probe is matched first after a re-dial, at any later time, extends the jitter's run iff the latest sample before was of the last probe then sent and this is the next one, and otherwise resets the jitter to 0 |
| LinkState.StateIsHistory | internal/prober/client.go:411-554 | in every reachable state misses, write failures, the estimator and link_up are functions of the history, and in adaptive mode the estimator's timeout count is coupled to the misses |
| LinkState.OnlyThreeCausesLowerLink | internal/prober/client.go:494-554 | link_up falls only on a failed dial, a third miss in a row or exactly the third failed write in a row |
| Outage.DownAtThirdLoss | internal/prober/client.go:471-499 | from every reachable state with link_up 1, over any steps without an echo, a failed dial or a third failed write, link_up is 0 iff at least three probes have been lost on the wire since the last echo |
| WriteFailures.LinkInStreak | internal/prober/client.go:540-553 | in every reachable state of a session with three or more failed writes in a row in that session, link_up is 1 iff an echo came in after the third failure and fewer than three probes were lost since the last echo |
| WriteFailures.DownUntilNextWrite | internal/prober/client.go:540-554 | with the link down and nothing pending, link_up stays 0 over any run without a successful write |
| WriteFailures.RaisedWithoutWriteIff | internal/prober/client.go:411-462 | in a reachable session with link_up 0, some continuation that keeps to the timer and writes nothing raises it iff a probe is pending |
| WriteFailures.PersistentFailuresIff | internal/prober/client.go:346-553 | from a re-dial with link_up 1, over every life of any number of sessions in which all dials succeed, all writes fail and the ticks are one interval apart, link_up is 0 from the fourth step on iff the reconnect interval is above three probe intervals |
| WriteFailures.FailuresLowerLink | internal/prober/client.go:540-553 | from any re-dial, with ticks at most a gap apart and the reconnect interval above three gaps, failing writes put link_up at 0 from the fourth step on |
| WriteFailures.ShortSessionsHideFailures | internal/prober/client.go:501-553 | with the reconnect interval at most three probe intervals, link_up stays 1 over any number of sessions in which no dial fails and no write succeeds |
| WriteFailures.PanicsNeverLowerLink | internal/prober/client.go:359-375 | writes that always panic leave link_up at 1, in every configuration and for any timing |
| WriteFailures.FailingStepsAreALife | internal/prober/client.go:540-553 | such lives exist at every length |
| WriteFailures.OneShortSession | internal/prober/client.go:501-553 | with the reconnect interval above two and at most three probe intervals, each session has two failed writes, re-dials at its third tick and leaves link_up at 1 |
| Jitter.RunStartIsLongest | internal/prober/client.go:441-449 | the run the estimate is computed from is the longest suffix of samples with consecutive numbers |
| Jitter.JitterIsHistory | internal/prober/client.go:441-455 | in every reachable state the gauge is the estimator of section 6.4.1 of RFC 3550 over that run, across re-dials |
| Jitter.NoLossInsideRun | internal/prober/client.go:441-455 | every probe numbered inside that run was matched: none is lost, flushed, abandoned or pending |
| Jitter.JitterBound | internal/prober/client.go:449-450 | with RTTs in [lo, hi] and k differences the estimate is at most (hi-lo)(1-(15/16)^k) |
| Jitter.RemainderIsGeometric | internal/prober/client.go:449-450 | the term of that bound is the width times (15/16)^k |
| Jitter.GaugeBound | internal/prober/client.go:449-455 | the same bound for the gauge in every reachable state |
| Timing.SpacedProbesAreFew | internal/prober/client.go:399-405 | probes spaced an interval apart and none older than the timeout are at most timeout/interval in number |
| Timing.SweepBoundsInFlight | internal/prober/client.go:381-480 | after the sweep of a tick at most timeout/interval probes are pending |
| Timing.InFlightBound | internal/prober/client.go:381-559 | while a session runs, sent - rtt_count - timed_out = inflight is at most timeout/interval + 1 for the last tick's timeout |
| Timing.SocketLifetime | internal/prober/client.go:501-519 | with ticks at most a gap apart no tick finds a session older than the reconnect interval plus the gap, and a tick that finds it as old as the reconnect interval ends it, however many probes are in flight |
| Timing.RecordedRttBound | internal/prober/client.go:381-480 | every RTT recorded is at most the previous tick's timeout plus the time since that tick |
| Timing.RttAboveIff | internal/prober/client.go:408-439 | in every reachable session, some tick within a gap of the last clock reading records an RTT above x iff some pending probe will by then be older than x |
| Timing.NoLossOnPromptLink | internal/prober/client.go:383-480 | from any state with SRTT at least lo, a link with RTTs in [lo, max(2 lo, 200 ms)] whose echoes are queued in time loses no probe and keeps SRTT at least lo |
| Timing.TimeoutMeetsFloor | internal/prober/adaptive.go:66-69 | after four or more equal RTTs of any length the timeout is exactly max(200 ms, 2 RTT) |
| AdaptiveLoop.RtoFollowsTimeoutTicks | internal/prober/client.go:457-484 | in every reachable state of the loop the RTO follows the ticks with timeouts since the last echo, and thirteen of them saturate it |
| AdaptiveLoop.TimeoutOfNextTick | internal/prober/client.go:381-386 | in every reachable state the timeout of the next tick is the configured one, or in adaptive mode the last measured RTO doubled once per timeout tick since but the first, between floor and cap, in every case |
| AdaptiveLoop.StepFeedsEstimator | internal/prober/client.go:457-484 | every step feeds the estimator one measurement per echo counted, and exactly one timeout if its sweep loses anything |
| AdaptiveLoop.ObservationsOnlyGrow | internal/prober/client.go:457-484 | no step drops or alters what the estimator has observed before |
| AdaptiveLoop.PromptLinkLosesNothing | internal/prober/client.go:383-480 | from every reachable state that has measured something, all within [lo, max(2 lo, 200 ms)], a link that stays there and queues its echoes in time loses no probe |
| AdaptiveLoop.HeadroomIsExact | internal/prober/adaptive.go:60-69 | for every lo a run that keeps to the timer measures lo four times and loses the next probe when its echo may take one nanosecond more than max(2 lo, 200 ms) |
| AdaptiveLoop.AdaptiveInFlightBound | internal/prober/client.go:381-559 | if no RTT exceeds hi the adaptive loop has at most max(3 s, 2 hi)/interval + 1 probes in flight, over any run |
| AdaptiveLoop.FixedInFlightBound | internal/prober/client.go:381-559 | with a fixed timeout at most baseTimeout/interval + 1 probes are in flight, over any run |
| Recovery.SilentTick | internal/prober/client.go:381-559 | on a steady link a tick without an echo either leaves the estimator alone or backs it off once, and loses a probe sent after the jump only if it is older than the timeout and younger than the RTT |
| Recovery.WindowsBackOff | internal/prober/adaptive.go:45-58 | every window of ticks longer than the RTT without an echo backs the estimator off at least once |
| Recovery.GridGap | internal/prober/client.go:471 | an age on a grid that exceeds a timeout is at least the next grid point above it |
| Recovery.ReachOfNanoseconds | internal/prober/client.go:471 | with ticks at any times the first age at which a timeout loses a probe is one nanosecond above it |
| Recovery.RecoversFromJump | internal/prober/adaptive.go:45-70 | from every reachable session in adaptive mode that goes on, with writes that succeed, ticks on a grid and an RTT of at most the first grid point above max(3 s, 2 SRTT) from now on, an echo is matched within a bounded number of ticks, whatever became of earlier probes |
| Recovery.NothingMatchedAboveCap | internal/prober/adaptive.go:60-70 | if every echo takes longer than the last grid point up to max(3 s, 2 SRTT), and up to the last timeout, plus the gap between ticks, none is ever matched, over any run |
| Recovery.PeriodicRecoversIff | internal/prober/adaptive.go:45-70 | from the start of any session in adaptive mode that goes on, with writes that succeed, ticks exactly one interval apart and a constant RTT, an echo is matched within a bounded number of ticks iff the RTT is at most the first whole number of intervals above max(3 s, 2 SRTT), and otherwise none ever |
| Reader.ChannelIsFifo | internal/prober/client.go:269-343 | the response channel holds at most 100 responses and loses, repeats and reorders none; each was decoded from a valid datagram |
| Reader.ChannelOverRuns | internal/prober/client.go:269-343 | the same over every run of a reader from the moment it is spawned |
| Reader.EchoIsQueued | internal/prober/client.go:303-336 | an intact echo read with fewer than 100 responses waiting is queued with its probe's number and timestamp |
| Reader.ReaderLives | internal/prober/client.go:276-336 | over every run while the session goes on, the reader has stopped iff three attempts in a row to set the deadline have failed, and what it has pushed and holds is every valid datagram read, once each and in order |
| Reader.ReaderReadsOn | internal/prober/client.go:303-336 | in every reachable reading state of a running session, after a read that times out, fails or brings a foreign datagram, and after a valid one is queued, the reader is back at reading once the deadline is set |
| Reader.CancelStopsReader | internal/prober/client.go:276-278 | after a cancellation the reader takes at most three more actions, whatever it reads |
| Reader.ReaderStops | internal/prober/client.go:271-343 | after a session ends its reader takes at most five more actions and is never stuck, even if blocked on a full channel |
| LinkSystem.MatchedWereSentAndEchoed | internal/prober/client.go:411-439 | every matched probe was sent by the client, and the very datagram it was sent in was echoed by the server, whatever an unforging network does |
| LinkSystem.CountersAreOrdered | internal/prober/server.go:158-217 | if the network does not duplicate towards the server, rtt_count <= server_received <= sent in every reachable state |
| LinkSystem.FramesDiffer | internal/prober/client.go:526-534 | distinct probes are sent in distinct datagrams |
| LinkSystem.WireHasNoGaps | internal/prober/client.go:521-559 | the datagrams of a run carry the numbers 1, 2, 3, ... without gaps or repeats, each with its own send time |
| LinkSystem.UnmodifiedEchoMatches | internal/prober/server.go:187-214 | an unmodified echo of a pending probe passes the server's checks and the client's matching |
| Exceptions.LinkUpDespiteWriteFailures | internal/prober/client.go:540-553 | a run in which link_up is 1 after four failed writes in a row, because a late echo came in |
| Exceptions.LinkUpThroughFailures | internal/prober/client.go:501-553 | with the reconnect interval above one and at most three probe intervals, a run of any length that keeps to the timer has link_up 1 although every write after its first echo fails |
| Exceptions.RedialResetsJitter | internal/prober/client.go:441-455 | a run that keeps to the timer, loses nothing on the wire, flushes a probe at a re-dial with the jitter at 25 ms, and has it reset to 0 by the next echo |
| Exceptions.StalledRunIsLegal | internal/prober/client.go:399-405 | the run used for the next row keeps to the interval timer |
| Exceptions.RttAboveCapIsRecorded | internal/prober/client.go:408-439 | a run in adaptive mode that records an RTT of 3.5 s |

## Left out

- Sockets, DNS, timers and goroutine scheduling: they appear as nondeterministic steps and a clock.
- The pause of one second after a failed dial or a panic: the model only requires the clock not to run backwards where a statement needs it.
- Panics at other points of the loop than `conn.Write`: a panic between the deletion of a probe and the update of its counter would break the balance in the program too.
- The rounding of 64-bit floats and the wrap-around of the 64-bit sequence number.
- The internals of HMAC-SHA256: the tag is an arbitrary function of number and timestamp, so nothing is said about how hard tags are to forge.
- The difference between the client's wall clock, which stamps probes, and its monotonic clock, which measures them.
- Prometheus plumbing, histogram buckets, the `link_rto_seconds` gauge and the one-off slow-RTT warning: the counters are plain numbers.
- Loading and validating targets and allowlists, flags, service installation, TLS and the metrics endpoint: per-character or library-dependent checks.
- The reader goroutine as a method: it is a state machine, because it interleaves with the loop; the loop receives the responses of one tick as a sequence.
- Several targets behind one address: the composed system has one client, and other addresses may send the server anything.
