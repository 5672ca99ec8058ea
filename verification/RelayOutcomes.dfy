/** How a relay ends: what a stop releases, what becomes of a registration, and what a running relay
    forwards. */
module RelayOutcomes {
  import opened Carrier
  import opened Channel
  import opened ChunkCodec
  import opened Draining
  import opened Handshake
  import opened Options
  import opened RelayPull
  import ConnectBev

  lemma {:induction false} StaysSound(s: Relay, inputs: seq<Input>)
    requires Sound(s) && FreshInputs(s, inputs)
    ensures Sound(After(s, inputs))
    decreases |inputs|
  {
    hide Sound, Step;
    if |inputs| > 0 {
      StaysSound(s, inputs[..|inputs| - 1]);
      StepIsSound(After(s, inputs[..|inputs| - 1]), inputs[|inputs| - 1]);
    }
  }

  // ----- Where a stopped or disconnected relay gets stuck -----

  /** Data arrives and the callbacks of the connection are set. */
  predicate DataArrives(s: Relay, i: Input) {
    i.Read? && s.armed
  }

  lemma PostWhileAwaiting(s: Relay, e: CarrierEvent)
    requires Suspended(s) && s.point.Handshaking?
    ensures Post(s, e) == s.(events := s.events.(queue := s.events.queue + [e]), log := Log(s.log.results, s.log.posted + [e]))
  {
    hide Loop;
  }

  lemma DataEndsHandshake(s: Relay, bytes: string)
    requires Suspended(s) && s.point.Handshaking? && s.armed
    ensures Step(s, Read(bytes)) == AfterHandshake(Resumed(s.(recv := "", pendingRead := false), Handshaking, BevRead), s.recv + bytes)
  {
    hide AfterHandshake;
  }

  lemma AfterHandshakeMoves(s: Relay, resp: string)
    ensures var t := AfterHandshake(s, resp);
            t.point == if VerifyResponse(resp).Accepted? then Registering else Asleep
  {
    hide Destroy;
    if resp == "" {
      NothingIsRefused();
    }
  }

  lemma NothingIsRefused()
    ensures VerifyResponse("").Refused?
  {}

  lemma HandshakeStep(s: Relay, i: Input)
    requires Suspended(s) && s.point.Handshaking?
    ensures Step(s, i).point.Handshaking? <==> !DataArrives(s, i)
    ensures !DataArrives(s, i) ==>
              Suspended(Step(s, i)) && Step(s, i).bev == s.bev && Step(s, i).connectKey == s.connectKey
  {
    hide AfterHandshake, Post;
    match i {
      case Fires(_) =>
      case Event(connected, _) => PostWhileAwaiting(s, BevEvent(connected));
      case Read(bytes) =>
        if s.armed {
          DataEndsHandshake(s, bytes);
          AfterHandshakeMoves(Resumed(s.(recv := "", pendingRead := false), Handshaking, BevRead), s.recv + bytes);
        }
      case Reply(reply) => PostWhileAwaiting(s, RegisterEvent(reply));
      case Stop => StopWhileAwaiting(s);
      case Neighbour(_) =>
    }
  }

  lemma StopWhileAwaiting(s: Relay)
    requires Suspended(s) && s.point.Handshaking?
    ensures StopOutside(s) == Stopping(s).(events := s.events.(closed := true))
  {
    hide Loop;
  }

  predicate NoData(s: Relay, inputs: seq<Input>) {
    |inputs| > 0 ==>
      var front := inputs[..|inputs| - 1];
      NoData(s, front) && !DataArrives(After(s, front), inputs[|inputs| - 1])
  }

  predicate KeepsWaiting(s: Relay, inputs: seq<Input>) {
    After(s, inputs).point.Handshaking? && (|inputs| > 0 ==> KeepsWaiting(s, inputs[..|inputs| - 1]))
  }

  lemma {:induction false} WaitsWithoutData(s: Relay, inputs: seq<Input>)
    requires Suspended(s) && s.point.Handshaking?
    ensures KeepsWaiting(s, inputs) <==> NoData(s, inputs)
    ensures NoData(s, inputs) ==>
              var t := After(s, inputs); Suspended(t) && t.bev == s.bev && t.connectKey == s.connectKey
    decreases |inputs|
  {
    hide Step, Suspended;
    if |inputs| > 0 {
      var front := inputs[..|inputs| - 1];
      WaitsWithoutData(s, front);
      if NoData(s, front) {
        HandshakeStep(After(s, front), inputs[|inputs| - 1]);
      }
    }
  }

  /** Over every run, a relay keeps waiting for the handshake exactly as long as no data arrives, whatever
      else happens: the loss of the connection too. So long it keeps the connection, which stays in the
      table under its key. */
  lemma WaitsForeverWithoutData(s: Relay, inputs: seq<Input>)
    requires Sound(s) && s.point.Handshaking? && FreshInputs(s, inputs)
    ensures KeepsWaiting(s, inputs) <==> NoData(s, inputs)
    ensures NoData(s, inputs) ==>
              var t := After(s, inputs);
              t.bev == s.bev && t.connectKey == s.connectKey && ConnectBev.GetBev(t.conns, s.connectKey) == s.bev
  {
    hide Step, After, NoData, KeepsWaiting;
    WaitsWithoutData(s, inputs);
    StaysSound(s, inputs);
  }

  predicate Waiting(p: Point) {
    p.Connecting? || p.Handshaking?
  }

  /** Stopped, suspended before the handshake, and no callback is set. */
  predicate Stuck(s: Relay) {
    Waiting(s.point) && s.stopped && !s.armed && s.timers == 0 && !s.pendingRegister && !s.events.waiting
  }

  lemma StuckStep(s: Relay, i: Input)
    requires Stuck(s)
    ensures var t := Step(s, i); Stuck(t) && t.bev == s.bev && t.connectKey == s.connectKey
  {
    hide Loop;
  }

  lemma {:induction false} StuckForEver(s: Relay, inputs: seq<Input>)
    requires Stuck(s)
    ensures var t := After(s, inputs); Stuck(t) && t.bev == s.bev && t.connectKey == s.connectKey
    decreases |inputs|
  {
    hide Step, Stuck;
    if |inputs| > 0 {
      StuckForEver(s, inputs[..|inputs| - 1]);
      StuckStep(After(s, inputs[..|inputs| - 1]), inputs[|inputs| - 1]);
    }
  }

  lemma AfterTwo(s: Relay, i: Input, j: Input)
    ensures After(s, [i, j]) == Step(Step(s, i), j)
  {
    hide Step;
    assert [i, j][..1] == [i] && [i][..0] == [];
    assert After(s, [i]) == Step(After(s, []), i);
  }

  lemma LoopAtEnd(s: Relay)
    requires s.stopped
    ensures Loop(s, End).point.Finished? && Loop(s, End).stopped
  {}

  lemma StopMoves(s: Relay)
    requires Sound(s) && !s.point.Crashed?
    ensures var t := StopOutside(s);
            && Sound(t) && t.stopped && t.point == (if s.point.Running? then Finished else s.point)
            && (Waiting(s.point) ==> Stuck(t))
  {
    hide Owns, Loop;
    StopIsSound(s);
    LoopAtEnd(Stopping(s).(events := Close(s.events).0, point := Active));
  }

  lemma StoppedFinishes(t: Relay)
    requires Suspended(t) && t.stopped && !Waiting(t.point) && !t.point.Crashed? && !t.point.Running?
    ensures Step(Step(t, Reply(CasterErr)), Fires(ConnectBev.Unresolved)).point.Finished?
  {
    hide Loop;
  }

  /** A stopped relay can finish, and so free its connection, exactly if it was not stopped while it waited
      for the connection or for the handshake. */
  lemma StopReleasesExactly(s: Relay)
    requires Sound(s) && !s.point.Crashed?
    ensures (exists inputs :: After(StopOutside(s), inputs).point.Finished?) <==> !Waiting(s.point)
  {
    hide Step, StopOutside, Sound;
    StopMoves(s);
    if Waiting(s.point) {
      forall inputs
        ensures !After(StopOutside(s), inputs).point.Finished?
      {
        StuckForEver(StopOutside(s), inputs);
      }
    } else {
      SoundIsSuspended(StopOutside(s));
      AfterTwo(StopOutside(s), Reply(CasterErr), Fires(ConnectBev.Unresolved));
      StoppedFinishes(StopOutside(s));
    }
  }

  lemma SoundIsSuspended(s: Relay)
    requires Sound(s)
    ensures Suspended(s)
  {}

  // ----- Where draining the queue takes a relay -----

  function Place(d: Calls, stopped: bool, ended: bool): Point {
    if d.thrown then Crashed else if d.stopped || stopped then Finished else if ended then Asleep else Running
  }

  /** What the event loop makes of the relay: it is withdrawn if a call of the decoder stops it, or if it
      leaves to reconnect. */
  predicate Drains(s: Relay, d: Calls, ended: bool, t: Relay) {
    && t.point == Place(d, s.stopped, ended) && t.recv == d.buf && t.chunkedSize == d.size
    && t.connectKey == s.connectKey && t.stopped == (s.stopped || d.stopped)
    && t.asked == if d.stopped || (!d.thrown && !s.stopped && ended) then s.asked - {s.connectKey} else s.asked
  }

  lemma StopInsideIs(s: Relay)
    requires !s.events.waiting
    ensures var t := StopInside(s);
            && t.point == s.point && t.stopped && t.asked == s.asked - {s.connectKey} && t.events == s.events.(closed := true)
            && t.recv == s.recv && t.chunkedSize == s.chunkedSize && t.chunked == s.chunked && t.published == s.published
  {}

  lemma PublishIsCall(s: Relay)
    requires s.point.Active? && !s.events.waiting && (s.events.closed <==> s.stopped)
    ensures var t, d := Publish(s), Decode(s.recv, s.chunkedSize);
            if !s.chunked then t == s.(published := s.published + s.recv, recv := "")
            else
              && t.recv == d.buf && t.chunkedSize == d.size && t.chunked && t.published == s.published + d.out
              && t.point == (if d.end.Throws? then Crashed else Active)
              && t.stopped == (s.stopped || d.end.Stops?) && t.asked == (if d.end.Stops? then s.asked - {s.connectKey} else s.asked)
              && t.events == s.events.(closed := t.stopped)
  {
    hide Decode, StopInside;
    if s.chunked {
      var d := Decode(s.recv, s.chunkedSize);
      StopInsideIs(s.(recv := d.buf, chunkedSize := d.size, published := s.published + d.out));
    }
  }

  lemma LeaveEnds(s: Relay)
    ensures var t := Leave(s);
            && t.point == (if s.stopped then Finished else Asleep) && t.stopped == s.stopped
            && t.asked == (if s.stopped then s.asked else s.asked - {s.connectKey})
            && t.recv == s.recv && t.chunkedSize == s.chunkedSize && t.published == s.published
  {}

  lemma LoopTurn(s: Relay, e: CarrierEvent)
    ensures var t := React(s, e);
            Loop(s, Got(e)) == if !t.point.Active? then t else var (c, next) := Next(t.events); Loop(t.(events := c), next)
  {
    hide React, Next;
  }

  lemma LoopAtRest(s: Relay)
    requires s.point.Active? && s.events == Chan([], false, s.stopped)
    ensures var (c, wake) := Next(s.events); var t := Loop(s.(events := c), wake);
            && t.point == (if s.stopped then Finished else Running) && t.asked == s.asked && t.stopped == s.stopped
            && t.recv == s.recv && t.chunkedSize == s.chunkedSize && t.published == s.published
  {
    hide Leave;
    LeaveEnds(s);
    assert s.(events := s.events) == s;
  }

  /** One read, and then what is left of the queue. */
  lemma DrainsOn(s: Relay, u: Relay, n: nat, ended: bool, t: Relay)
    requires n > 0 && u.chunked == s.chunked && u.connectKey == s.connectKey && s.point.Active?
    requires var d := Decode(s.recv, s.chunkedSize);
             if !s.chunked then u.recv == "" && u.stopped == s.stopped && u.asked == s.asked && u.chunkedSize == s.chunkedSize
             else
               && !d.end.Throws? && u.recv == d.buf && u.chunkedSize == d.size
               && u.stopped == (s.stopped || d.end.Stops?) 
               && u.asked == (if d.end.Stops? then s.asked - {s.connectKey} else s.asked)
    requires Drains(u, Drained(u.chunked, u.recv, u.chunkedSize, n - 1), ended, t)
    ensures Drains(s, Drained(s.chunked, s.recv, s.chunkedSize, n), ended, t)
  {
    hide Decode, Drained;
    DrainedFirst(s.chunked, s.recv, s.chunkedSize, n);
    UnchunkedSize(s.recv, s.chunkedSize, n);
  }

  lemma UnchunkedSize(buf: string, size: SizeT, n: nat)
    ensures Drained(false, buf, size, n) == Calls(if n > 0 then "" else buf, size, false, false)
  {}

  lemma ThrowsDrain(s: Relay, n: nat, ended: bool, t: Relay)
    requires n > 0 && s.chunked && t.point.Crashed? && t.asked == s.asked && t.connectKey == s.connectKey && t.stopped == s.stopped
    requires var d := Decode(s.recv, s.chunkedSize); d.end.Throws? && t.recv == d.buf && t.chunkedSize == d.size
    ensures Drains(s, Drained(s.chunked, s.recv, s.chunkedSize, n), ended, t)
  {
    hide Decode, Drained;
    DrainedFirst(s.chunked, s.recv, s.chunkedSize, n);
  }

  lemma RestDrains(s: Relay)
    requires s.point.Active? && s.events == Chan([], false, s.stopped)
    ensures var (c, wake) := Next(s.events);
            Drains(s, Drained(s.chunked, s.recv, s.chunkedSize, 0), false, Loop(s.(events := c), wake))
  {
    hide Decode, Leave, Drained, Loop;
    LoopAtRest(s);
    DrainedNone(s.chunked, s.recv, s.chunkedSize);
  }

  lemma LeavingDrains(s: Relay, u: Relay)
    requires SameSession(s, u) && s.point.Active?
    ensures Drains(s, Drained(s.chunked, s.recv, s.chunkedSize, 0), true, Leave(u))
  {
    hide Decode, Leave, Drained;
    LeaveEnds(u);
    DrainedNone(s.chunked, s.recv, s.chunkedSize);
  }

  /** Nothing that draining depends on differs. */
  predicate SameSession(s: Relay, u: Relay) {
    && u.stopped == s.stopped && u.asked == s.asked && u.connectKey == s.connectKey && u.chunked == s.chunked
    && u.recv == s.recv && u.chunkedSize == s.chunkedSize
  }

  lemma ReadDrains(s: Relay, u: Relay, n: nat, ended: bool, t: Relay)
    requires SameSession(s, u) && s.point.Active? && u.point.Active? && !u.events.waiting && (u.events.closed <==> u.stopped)
    requires n > 0
    requires var v := Publish(u);
             if v.point.Active? then Drains(v, Drained(v.chunked, v.recv, v.chunkedSize, n - 1), ended, t) else t == v
    ensures Drains(s, Drained(s.chunked, s.recv, s.chunkedSize, n), ended, t)
  {
    hide Decode, Publish, Drained, Drains;
    PublishIsCall(u);
    if Publish(u).point.Active? {
      DrainsOn(s, Publish(u), n, ended, t);
    } else {
      ThrowsDrain(s, n, ended, t);
    }
  }

  lemma SkippedDrains(s: Relay, u: Relay, n: nat, ended: bool, t: Relay)
    requires SameSession(s, u) && Drains(u, Drained(u.chunked, u.recv, u.chunkedSize, n), ended, t)
    ensures Drains(s, Drained(s.chunked, s.recv, s.chunkedSize, n), ended, t)
  {
    hide Drained;
  }

  /** Publishing leaves the loop as it was, but for what it published. */
  lemma PublishKeepsQueue(u: Relay)
    requires u.point.Active? && !u.events.waiting && (u.events.closed <==> u.stopped)
    ensures var v := Publish(u);
            v.events.queue == u.events.queue && !v.events.waiting && (v.events.closed <==> v.stopped)
  {
    hide Decode, Publish;
    PublishIsCall(u);
  }

  /** Where the event loop ends up, what becomes of the registration, and what the decoder holds: one call of
      the decoder for each read event before the first event that disconnects. */
  lemma {:induction false} LoopEndsAt(s: Relay, q: seq<CarrierEvent>, n: nat)
    requires s.point.Active? && !s.events.waiting && (s.events.closed <==> s.stopped)
    requires q == s.events.queue && n == ReadsUntil(q, Disconnects)
    ensures var (c, wake) := Next(s.events);
            Drains(s, Drained(s.chunked, s.recv, s.chunkedSize, n), AnyEnds(q, Disconnects), Loop(s.(events := c), wake))
    decreases |q|
  {
    hide Decode, Publish, Leave, Drained, Drains, Loop;
    if |q| == 0 {
      RestDrains(s);
    } else {
      var (c, wake) := Next(s.events);
      var u := s.(events := c);
      LoopTurn(u, q[0]);
      if Disconnects(q[0]) {
        LeavingDrains(s, u);
        LeaveEnds(u);
      } else if q[0].BevRead? {
        PublishKeepsQueue(u);
        if Publish(u).point.Active? {
          LoopEndsAt(Publish(u), q[1..], n - 1);
        }
        ReadDrains(s, u, n, AnyEnds(q, Disconnects), Loop(u, wake));
      } else {
        LoopEndsAt(u, q[1..], n);
        SkippedDrains(s, u, n, AnyEnds(q, Disconnects), Loop(u, wake));
      }
    }
  }

  // ----- What becomes of a registration -----

  /** What a positive answer leads to, in either coding, is decided by the stop flag, by the events that are
      queued, left over from earlier attempts or posted meanwhile, and by the decoder called for each queued
      read before the first event that disconnects. The relay runs exactly if it was not stopped, none
      disconnects it, and no call stops or throws; it finishes for good exactly if it was stopped or a call
      stops it. The core keeps it on record exactly if it runs, or if the program ends before it was
      stopped. */
  lemma RegistrationOutcome(s: Relay, n: nat)
    requires Sound(s) && s.point.Registering? && n == ReadsUntil(s.events.queue, Disconnects)
    ensures var t, d := RegisterCb(s, CasterOk), Drained(s.chunked, s.recv, s.chunkedSize, n);
            && (t.point.Crashed? <==> d.thrown)
            && (t.point.Finished? <==> !d.thrown && (s.stopped || d.stopped))
            && (t.point.Running? <==> !d.thrown && !s.stopped && !d.stopped && !AnyEnds(s.events.queue, Disconnects))
            && (s.connectKey in t.asked <==> t.point.Running? || (d.thrown && !s.stopped && !d.stopped))
            && t.recv == d.buf && t.chunkedSize == d.size
  {
    hide Decode, Drained, Loop, Owns;
    var u := Resumed(s.(pendingRegister := false), Registering, RegisterEvent(CasterOk));
    var v := StartBev(u.(retryDelay := FIRST_DELAY, sleeps := []));
    LoopEndsAt(v, s.events.queue, n);
  }

  /** Two pieces arrive while a chunked relay waits for its registration: it finishes for good exactly if one
      of the two calls stops, provided none throws. */
  lemma TwoPiecesWhileRegistering(s: Relay)
    requires Sound(s) && s.point.Registering? && s.chunked && !s.stopped && s.events.queue == [BevRead, BevRead]
    ensures var t, d := RegisterCb(s, CasterOk), Decode(s.recv, s.chunkedSize);
            var e := Decode(d.buf, d.size);
            && (t.point.Finished? <==> !d.end.Throws? && !e.end.Throws? && (d.end.Stops? || e.end.Stops?))
            && (t.point.Finished? ==> s.connectKey !in t.asked)
  {
    hide Decode, RegisterCb, Sound;
    var d := Decode(s.recv, s.chunkedSize);
    TwoReads();
    RegistrationOutcome(s, 2);
    assert CallsAfter(d.buf, d.size, 1) == CallsAfter(d.buf, d.size, 1);
    var e := Decode(d.buf, d.size);
    assert CallsAfter(e.buf, e.size, 0) == Calls(e.buf, e.size, false, false);
  }

  lemma TwoReads()
    ensures ReadsUntil([BevRead, BevRead], Disconnects) == 2 && !AnyEnds([BevRead, BevRead], Disconnects)
  {
    assert [BevRead, BevRead][1..] == [BevRead] && [BevRead][1..] == [];
  }

  /** So a relay is ended for good by two pieces that together are whole, valid chunks: the first call takes
      them all, and the second finds nothing. */
  lemma WholeChunksEndRelay(s: Relay, payloads: seq<string>)
    requires Sound(s) && s.point.Registering? && s.chunked && !s.stopped && s.events.queue == [BevRead, BevRead]
    requires |payloads| > 0 && Sendable(payloads) && s.recv == Stream(payloads) && s.chunkedSize == 0
    ensures var t := RegisterCb(s, CasterOk); t.point.Finished? && s.connectKey !in t.asked
  {
    hide CallsAfter, RegisterCb, Sound, Stream;
    TwoReads();
    RegistrationOutcome(s, 2);
    SecondReadStops(payloads);
  }

  // ----- What a running relay forwards -----

  /** Data that arrives at a running relay is published at once: all of it without chunking, and what one
      call of the decoder returns with it. A decoder that stops finishes the relay. */
  lemma RunningForwards(s: Relay, bytes: string)
    requires Suspended(s) && s.point.Running?
    ensures var t, d := ReadCb(s, bytes), Decode(s.recv + bytes, s.chunkedSize);
            if s.chunked then
              && t.published == s.published + d.out && t.recv == d.buf && t.chunkedSize == d.size
              && t.point == match d.end case Waits => Running case Stops => Finished case Throws => Crashed
            else t.published == s.published + (s.recv + bytes) && t.recv == "" && t.point.Running?
  {
    hide Decode, Publish, Loop;
    var r := s.(recv := s.recv + bytes);
    var u := r.(events := Empty(), point := Active, log := Log(s.log.results, s.log.posted + [BevRead]));
    PushWakes(r.events, BevRead);
    assert ReadCb(s, bytes) == Loop(u, Got(BevRead));
    LoopTurn(u, BevRead);
    PublishIsCall(u);
    if Publish(u).point.Active? {
      LoopAtRest(Publish(u));
    }
  }
}
