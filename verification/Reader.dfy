/** The reader goroutine of runEchoLoop and the channel between it and the loop, as a state machine:
    one action is one step of the reader, or one step of the loop that the reader can see. */
module Reader {
  import opened Units
  import opened Wire
  import ProbeLoop

  const CHANNEL_CAPACITY: nat := 100
  const MAX_DEADLINE_FAILS: nat := 3

  datatype Pc = Top | Reading | Pushing(response: ProbeLoop.Response) | Stopped

  /** accepted and taken record what was pushed into the channel and what the loop drained from it. */
  datatype ReaderState = ReaderState(
    pc: Pc, deadlineFails: nat, queue: seq<ProbeLoop.Response>,
    ctxDone: bool, connClosed: bool, done: bool,
    accepted: seq<ProbeLoop.Response>, taken: seq<ProbeLoop.Response>)

  const SPAWNED: ReaderState := ReaderState(Top, 0, [], false, false, false, [], [])

  datatype ReadResult = TimedOut | NetClosed | OtherError | Datagram(bytes: seq<Byte>, at: int)

  datatype Action =
    // the reader
    | SetDeadline(ok: bool)
    | Read(result: ReadResult)
    | Push
    | Quit
    // the loop and its deferred calls
    | Take
    | CancelContext
    | CloseConn
    | CloseDone

  predicate IsReaderAction(a: Action) {
    a.SetDeadline? || a.Read? || a.Push? || a.Quit?
  }

  /** A closed connection accepts no deadline; a push needs room in the channel, and leaving the select
      without one needs a closed channel or a finished context. */
  predicate Enabled(s: ReaderState, a: Action) {
    match a
    case SetDeadline(ok) => s.pc.Top? && (ok ==> !s.connClosed)
    case Read(result) => s.pc.Reading? && (result.NetClosed? ==> s.connClosed)
    case Push => s.pc.Pushing? && |s.queue| < CHANNEL_CAPACITY
    case Quit => s.pc.Pushing? && (s.ctxDone || s.done)
    case Take => s.queue != [] && !s.done
    case CancelContext => true
    case CloseConn => true
    case CloseDone => true
  }

  /** conn.Read fills a buffer of MAX_DATAGRAM bytes. */
  function Truncated(d: seq<Byte>): seq<Byte> {
    if |d| <= MAX_DATAGRAM then d else d[..MAX_DATAGRAM]
  }

  function AfterRead(auth: Auth, s: ReaderState, result: ReadResult): Pc {
    match result
    case TimedOut => Top
    case NetClosed => Stopped
    case OtherError => if s.ctxDone then Stopped else Top
    case Datagram(bytes, at) =>
      match Decode(auth, Truncated(bytes))
      case None => Top
      case Some(p) => Pushing(ProbeLoop.Response(p.seqNum, p.ts, at))
  }

  function Act(auth: Auth, s: ReaderState, a: Action): ReaderState
    requires Enabled(s, a)
  {
    match a
    case SetDeadline(ok) =>
      if s.ctxDone then s.(pc := Stopped)
      else if ok then s.(pc := Reading, deadlineFails := 0)
      else if s.deadlineFails + 1 >= MAX_DEADLINE_FAILS then s.(pc := Stopped, deadlineFails := s.deadlineFails + 1)
      else s.(deadlineFails := s.deadlineFails + 1)
    case Read(result) => s.(pc := AfterRead(auth, s, result))
    case Push => s.(pc := Top, queue := s.queue + [s.pc.response], accepted := s.accepted + [s.pc.response])
    case Quit => s.(pc := Stopped)
    case Take => s.(queue := s.queue[1..], taken := s.taken + [s.queue[0]])
    case CancelContext => s.(ctxDone := true)
    case CloseConn => s.(connClosed := true)
    case CloseDone => s.(done := true)
  }

  ghost predicate Possible(auth: Auth, s: ReaderState, actions: seq<Action>)
    decreases |actions|
  {
    actions == [] || (Enabled(s, actions[0]) && Possible(auth, Act(auth, s, actions[0]), actions[1..]))
  }

  function ActAll(auth: Auth, s: ReaderState, actions: seq<Action>): ReaderState
    requires Possible(auth, s, actions)
    decreases |actions|
  {
    if actions == [] then s else ActAll(auth, Act(auth, s, actions[0]), actions[1..])
  }

  function ReaderActions(actions: seq<Action>): nat {
    if actions == [] then 0 else (if IsReaderAction(actions[0]) then 1 else 0) + ReaderActions(actions[1..])
  }

  // ----- The channel -----

  ghost predicate Sound(auth: Auth, s: ReaderState) {
    && |s.queue| <= 100
    && s.accepted == s.taken + s.queue
    && (forall r :: r in s.accepted ==> WasDecoded(auth, r))
    && (s.pc.Pushing? ==> WasDecoded(auth, s.pc.response))
    && (s.pc.Top? ==> s.deadlineFails < 3)
    && (s.pc.Reading? || s.pc.Pushing? ==> s.deadlineFails == 0)
  }

  /** The response was decoded from a datagram of the right size, header and tag. */
  ghost predicate WasDecoded(auth: Auth, r: ProbeLoop.Response) {
    exists d :: Decode(auth, d) == Some(Probe(r.seqNo, r.ts))
  }

  lemma NextSound(auth: Auth, s: ReaderState, a: Action)
    requires Sound(auth, s) && Enabled(s, a)
    ensures Sound(auth, Act(auth, s, a))
  {
    match a
    case Push =>
      var t := Act(auth, s, a);
      assert t.accepted == s.taken + (s.queue + [s.pc.response]);
    case Take =>
      assert s.queue == [s.queue[0]] + s.queue[1..];
    case Read(result) =>
      if result.Datagram? && Decode(auth, Truncated(result.bytes)).Some? {
        var p := Decode(auth, Truncated(result.bytes)).value;
        assert WasDecoded(auth, ProbeLoop.Response(p.seqNum, p.ts, result.at));
      }
    case _ =>
  }

  /** Over all runs the channel holds at most 100 responses and loses, repeats and reorders none: what
      was pushed is what the loop has taken followed by what is queued. */
  lemma {:induction false} ChannelIsFifo(auth: Auth, s: ReaderState, actions: seq<Action>)
    requires Sound(auth, s) && Possible(auth, s, actions)
    ensures Sound(auth, ActAll(auth, s, actions))
    decreases |actions|
  {
    if actions == [] {
    } else {
      NextSound(auth, s, actions[0]);
      ChannelIsFifo(auth, Act(auth, s, actions[0]), actions[1..]);
    }
  }

  /** The same from the moment the reader is spawned. */
  lemma ChannelOverRuns(auth: Auth, actions: seq<Action>)
    requires Possible(auth, SPAWNED, actions)
    ensures Sound(auth, ActAll(auth, SPAWNED, actions))
  {
    ChannelIsFifo(auth, SPAWNED, actions);
  }

  /** An intact echo of a probe is queued with that probe's number and timestamp. */
  lemma EchoIsQueued(auth: Auth, s: ReaderState, p: Probe, at: int)
    requires s.pc.Reading? && |s.queue| < 100
    ensures var read := Act(auth, s, Read(Datagram(Encode(auth, p), at)));
            && Enabled(read, Push)
            && Act(auth, read, Push).queue == s.queue + [ProbeLoop.Response(p.seqNum, p.ts, at)]
  {
    DecodeEncode(auth, p);
  }

  // ----- The reader does not stop while its session runs -----

  /** The session goes on: the context is live and the loop has not returned. */
  predicate Ongoing(actions: seq<Action>) {
    forall i :: 0 <= i < |actions| ==> !actions[i].CancelContext? && !actions[i].CloseConn? && !actions[i].CloseDone?
  }

  /** How many attempts to set the deadline have failed since the last that succeeded. */
  function FailedDeadlines(actions: seq<Action>): nat {
    if actions == [] then 0
    else
      var before, last := FailedDeadlines(actions[..|actions| - 1]), actions[|actions| - 1];
      if !last.SetDeadline? then before else if last.ok then 0 else before + 1
  }

  /** What was read so far that passes the checks, in the order in which it was read. */
  function ValidReads(auth: Auth, actions: seq<Action>): seq<ProbeLoop.Response> {
    if actions == [] then []
    else
      var before, last := ValidReads(auth, actions[..|actions| - 1]), actions[|actions| - 1];
      if last.Read? && last.result.Datagram? && Decode(auth, last.result.bytes).Some? then
        var p := Decode(auth, last.result.bytes).value;
        before + [ProbeLoop.Response(p.seqNum, p.ts, last.result.at)]
      else before
  }

  function Held(s: ReaderState): seq<ProbeLoop.Response> {
    if s.pc.Pushing? then [s.pc.response] else []
  }

  ghost predicate Alive(auth: Auth, s: ReaderState, actions: seq<Action>) {
    && !s.ctxDone && !s.connClosed && !s.done
    && (s.pc.Stopped? <==> FailedDeadlines(actions) >= 3)
    && s.deadlineFails == FailedDeadlines(actions)
    && s.accepted + Held(s) == ValidReads(auth, actions)
  }

  lemma TruncationKeepsDecode(auth: Auth, d: seq<Byte>)
    ensures Decode(auth, Truncated(d)) == Decode(auth, d)
  {
  }

  lemma StaysAlive(auth: Auth, s: ReaderState, actions: seq<Action>, a: Action)
    requires Alive(auth, s, actions) && Enabled(s, a) && !a.CancelContext? && !a.CloseConn? && !a.CloseDone?
    ensures Alive(auth, Act(auth, s, a), actions + [a])
  {
    assert (actions + [a])[..|actions|] == actions;
    if a.Read? && a.result.Datagram? { TruncationKeepsDecode(auth, a.result.bytes); }
  }

  lemma {:induction false} StaysAliveOverRuns(auth: Auth, s: ReaderState, earlier: seq<Action>, actions: seq<Action>)
    requires Alive(auth, s, earlier) && Possible(auth, s, actions) && Ongoing(actions)
    ensures Alive(auth, ActAll(auth, s, actions), earlier + actions)
    decreases |actions|
  {
    if actions == [] {
      assert earlier + actions == earlier;
    } else {
      assert !actions[0].CancelContext?;
      StaysAlive(auth, s, earlier, actions[0]);
      StaysAliveOverRuns(auth, Act(auth, s, actions[0]), earlier + [actions[0]], actions[1..]);
      assert earlier + actions == (earlier + [actions[0]]) + actions[1..];
    }
  }

  /** While its session runs, the reader has stopped exactly if three attempts in a row to set the deadline
      have failed, whatever its reads return; and what it has pushed, with what it is about to push, is
      every valid datagram read, once each and in order. */
  lemma ReaderLives(auth: Auth, actions: seq<Action>)
    requires Possible(auth, SPAWNED, actions) && Ongoing(actions)
    ensures Alive(auth, ActAll(auth, SPAWNED, actions), actions)
  {
    StaysAliveOverRuns(auth, SPAWNED, [], actions);
    assert [] + actions == actions;
  }

  /** In any reachable state of a running session in which the reader reads, it reads again once the deadline
      is set, whatever the read returns: at once if that was no valid datagram, and otherwise after queueing
      its number and timestamp, for which there is room in the channel unless 100 responses wait. */
  lemma ReaderReadsOn(auth: Auth, actions: seq<Action>, result: ReadResult)
    requires Possible(auth, SPAWNED, actions) && Ongoing(actions)
    requires ActAll(auth, SPAWNED, actions).pc.Reading? && !result.NetClosed?
    ensures var s := ActAll(auth, SPAWNED, actions);
            && Enabled(s, Read(result))
            && var read := Act(auth, s, Read(result));
               if result.Datagram? && Decode(auth, result.bytes).Some? then
                 && (Enabled(read, Push) <==> |s.queue| < 100)
                 && (|s.queue| < 100 ==>
                       var pushed := Act(auth, read, Push);
                       var p := Decode(auth, result.bytes).value;
                       && pushed.queue == s.queue + [ProbeLoop.Response(p.seqNum, p.ts, result.at)]
                       && Enabled(pushed, SetDeadline(true)) && Act(auth, pushed, SetDeadline(true)).pc.Reading?)
               else
                 && read.queue == s.queue
                 && Enabled(read, SetDeadline(true)) && Act(auth, read, SetDeadline(true)).pc.Reading?
  {
    ReaderLives(auth, actions);
    if result.Datagram? { TruncationKeepsDecode(auth, result.bytes); }
  }

  // ----- The reader does not outlive its session -----

  /** How many more actions a reader can take once its session is over. */
  function Remaining(s: ReaderState): nat {
    match s.pc
    case Stopped => 0
    case Top => if s.deadlineFails < 3 then 3 - s.deadlineFails else 1
    case Pushing(_) => 4
    case Reading => 5
  }

  /** After the loop has returned, in whatever way, and its deferred calls have closed the connection
      and the done channel, the reader takes at most five more actions, whatever reads still return, and
      it is never stuck before it stops, even if it was blocked on a full channel. */
  lemma {:induction false} ReaderStops(auth: Auth, s: ReaderState, actions: seq<Action>)
    requires Sound(auth, s) && s.connClosed && s.done && Possible(auth, s, actions)
    ensures ReaderActions(actions) + Remaining(ActAll(auth, s, actions)) <= Remaining(s) <= 5
    ensures var t := ActAll(auth, s, actions);
            t.pc.Stopped? || exists a :: IsReaderAction(a) && Enabled(t, a)
    decreases |actions|
  {
    if actions == [] {
      match s.pc
      case Top => assert Enabled(s, SetDeadline(false));
      case Reading => assert Enabled(s, Read(NetClosed));
      case Pushing(_) => assert Enabled(s, Quit);
      case Stopped =>
    } else {
      NextSound(auth, s, actions[0]);
      ReaderStops(auth, Act(auth, s, actions[0]), actions[1..]);
    }
  }

  /** The same after a cancellation alone, with the connection still open. */
  function RemainingAfterCancel(s: ReaderState): nat {
    match s.pc
    case Stopped => 0
    case Top => 1
    case Pushing(_) => 2
    case Reading => 3
  }

  /** Once the context is cancelled the reader takes at most three more actions, even if every deadline can
      be set and every read brings a datagram. */
  lemma {:induction false} CancelStopsReader(auth: Auth, s: ReaderState, actions: seq<Action>)
    requires s.ctxDone && Possible(auth, s, actions)
    ensures ReaderActions(actions) + RemainingAfterCancel(ActAll(auth, s, actions)) <= RemainingAfterCancel(s) <= 3
    decreases |actions|
  {
    if actions == [] {
    } else {
      CancelStopsReader(auth, Act(auth, s, actions[0]), actions[1..]);
    }
  }
}
