/** The relay coroutine as a table: what each thing that can happen makes of it, place by place. */
module RelayLaws {
  import opened Carrier
  import opened Channel
  import opened ChunkCodec
  import opened Handshake
  import opened Options
  import opened RelayPull
  import ConnectBev

  /** Asleep before the next attempt: the connection is deleted and the pause is noted. */
  function Resting(s: Relay): Relay {
    s.(point := Asleep, timers := s.timers + 1, sleeps := s.sleeps + [s.retryDelay],
       armed := false, bev := None, conns := ConnectBev.DelBev(s.conns, s.connectKey))
  }

  function Over(s: Relay): Relay {
    s.(point := Finished, armed := false, bev := None, conns := ConnectBev.DelBev(s.conns, s.connectKey))
  }

  function Heard(s: Relay, e: CarrierEvent): Log {
    Log(s.log.results + [e], s.log.posted)
  }

  function Noted(s: Relay, e: CarrierEvent): Log {
    Log(s.log.results, s.log.posted + [e])
  }

  lemma TimersGoFirst(c: ConnectBev.Conns, key: string)
    ensures ConnectBev.DelBev(ConnectBev.DelTimer(c, key), key) == ConnectBev.DelBev(c, key)
  {
    assert c.readTimers - {key} - {key} == c.readTimers - {key};
    assert c.writeTimers - {key} - {key} == c.writeTimers - {key};
  }

  // ----- Asleep -----

  /** Waking up doubles the delay up to a minute. A stopped relay is over; otherwise it dials, and sleeps
      again if that fails at once. */
  lemma WakesUp(s: Relay, dial: ConnectBev.Dial)
    requires Sound(s) && s.point.Asleep? && FreshDial(s.conns, dial)
    ensures var delay := if s.retryDelay >= 30 then 60 else 2 * s.retryDelay;
            var t, u := StepAlive(s, Fires(dial)), s.(timers := 0, retryDelay := delay);
            && (s.stopped ==> t == Over(u))
            && (!s.stopped && dial.Unresolved? ==>
                  t == u.(connectKey := "", timers := 1, sleeps := s.sleeps + [delay]))
            && (!s.stopped && dial.Failed? ==>
                  t == u.(connectKey := "", timers := 1, sleeps := s.sleeps + [delay], dialled := s.dialled + {dial.bev},
                          conns := s.conns.(handed := s.conns.handed + {dial.bev}, freed := s.conns.freed + [dial.bev])))
            && (!s.stopped && dial.Dialled? ==>
                  t == u.(connectKey := dial.key, bev := Some(dial.bev), dialled := s.dialled + {dial.bev},
                          point := Connecting, pendingEvent := true, armed := true,
                          conns := ConnectBev.Conns(s.conns.table[dial.key := dial.bev],
                                                    s.conns.readTimers[dial.key := 0], s.conns.writeTimers[dial.key := 0],
                                                    s.conns.handed + {dial.bev}, s.conns.freed, s.conns.lost)))
  {}

  // ----- Connecting and shaking hands -----

  /** A connection that fails sends the relay to sleep; one that stands is renamed after its socket, and the
      relay waits for the reply. */
  lemma ConnectionAnswered(s: Relay, connected: bool, named: string)
    requires Sound(s) && s.point.Connecting? && s.armed && FreshInput(s, Event(connected, named))
    ensures var t := StepAlive(s, Event(connected, named));
            var u := s.(pendingEvent := false, log := Heard(s, BevEvent(connected)));
            && (!connected ==> t == Resting(u))
            && (connected && (named == "" || named == s.connectKey) ==>
                  t == u.(point := Handshaking, pendingRead := true))
            && (connected && named != "" && named != s.connectKey ==>
                  t == u.(point := Handshaking, pendingRead := true, connectKey := named,
                          conns := ConnectBev.SetKey(s.conns, s.connectKey, named)))
  {}

  /** The reply is all that has arrived. An empty or a refused one sends the relay to sleep; after an
      accepted one it asks for its registration, with the coding that the reply names. */
  lemma ReplyAnswered(s: Relay, bytes: string)
    requires Sound(s) && s.point.Handshaking? && s.armed
    ensures var t, reply := StepAlive(s, Read(bytes)), s.recv + bytes;
            var u := s.(pendingRead := false, recv := "", log := Heard(s, BevRead));
            && (reply == "" || VerifyResponse(reply).Refused? ==> t == Resting(u))
            && (reply != "" && VerifyResponse(reply).Accepted? ==>
                  t == u.(point := Registering, pendingRegister := true, asked := s.asked + {s.connectKey},
                          chunked := VerifyResponse(reply).chunked))
  {
    hide VerifyResponse;
  }

  // ----- Registering -----

  /** A refused registration sends the relay to sleep and is not withdrawn. */
  lemma RegistrationRefused(s: Relay, reply: CasterReply)
    requires Sound(s) && s.point.Registering? && (reply.CasterErr? || reply.CasterOther?)
    ensures StepAlive(s, Reply(reply)) == Resting(s.(pendingRegister := false, log := Heard(s, RegisterEvent(reply))))
  {}

  /** With nothing queued a granted one makes the relay run, with the shortest delay again, or is the end of
      a stopped relay. */
  lemma RegistrationGranted(s: Relay)
    requires Sound(s) && s.point.Registering? && s.events.queue == []
    ensures var t := StepAlive(s, Reply(CasterOk));
            var u := s.(pendingRegister := false, retryDelay := 5, sleeps := [], armed := true,
                        conns := ConnectBev.SetTimer(s.conns, s.connectKey, 0, 0),
                        log := Heard(s, RegisterEvent(CasterOk)));
            && (!s.stopped ==> t == u.(point := Running, events := Chan([], true, false)))
            && (s.stopped ==> t == Over(u))
  {}

  // ----- Running -----

  lemma TurnOf(s: Relay, e: CarrierEvent)
    ensures Loop(s, Got(e)) == var t := React(s, e);
                               if !t.point.Active? then t else var (c, next) := Next(t.events); Loop(t.(events := c), next)
  {
    hide React, Next;
  }

  lemma RestsOpen(s: Relay)
    requires s.events == Chan([], false, false)
    ensures var (c, wake) := Next(s.events); Loop(s.(events := c), wake) == s.(events := Chan([], true, false), point := Running)
  {}

  lemma RestsClosed(s: Relay)
    requires s.events == Chan([], false, true) && s.stopped
    ensures var (c, wake) := Next(s.events); Loop(s.(events := c), wake) == Over(s)
  {}

  lemma PostedNow(s: Relay, e: CarrierEvent)
    requires Suspended(s) && s.point.Running?
    ensures var t := React(s.(point := Active, events := Empty(), log := Noted(s, e)), e);
            Post(s, e) == if !t.point.Active? then t else var (c, next) := Next(t.events); Loop(t.(events := c), next)
  {
    hide React, Next;
    PushWakes(s.events, e);
    TurnOf(s.(point := Active, events := Empty(), log := Noted(s, e)), e);
  }

  /** A running relay is disconnected by a change of its connection and by a registration error: it withdraws
      its registration, drops what is queued, and sleeps five seconds. Any other answer only passes by. */
  lemma RunningReacts(s: Relay, connected: bool, named: string, reply: CasterReply)
    requires Sound(s) && s.point.Running?
    ensures var gone := s.(events := Chan([], false, false), asked := s.asked - {s.connectKey});
            && StepAlive(s, Event(connected, named)) == Resting(gone.(log := Noted(s, BevEvent(connected))))
            && (reply.CasterErr? ==> StepAlive(s, Reply(reply)) == Resting(gone.(log := Noted(s, RegisterEvent(reply)))))
            && (reply.CasterOk? || reply.CasterOther? ==> StepAlive(s, Reply(reply)) == s.(log := Noted(s, RegisterEvent(reply))))
    ensures s.sleeps == [] && s.retryDelay == 5
  {
    hide Post, ConnectBev.DelBev, Owns;
    PostedWhileRunning(s, BevEvent(connected));
    PostedWhileRunning(s, RegisterEvent(reply));
  }

  lemma PostedWhileRunning(s: Relay, e: CarrierEvent)
    requires Suspended(s) && s.point.Running? && !s.stopped && !e.BevRead?
    ensures Post(s, e)
         == if e.BevEvent? || e == RegisterEvent(CasterErr)
            then Resting(s.(events := Chan([], false, false), asked := s.asked - {s.connectKey}, log := Noted(s, e)))
            else s.(log := Noted(s, e))
  {
    hide Publish, Loop, Post, ConnectBev.DelBev, ConnectBev.DelTimer;
    TimersGoFirst(s.conns, s.connectKey);
    PostedNow(s, e);
    RestsOpen(s.(point := Active, events := Chan([], false, false), log := Noted(s, e)));
  }

  /** Data is published at once: all of it, or what the decoder takes off the buffer. The decoder's stop is
      the end of the relay for good, and its exception that of the program. */
  lemma RunningPublishes(s: Relay, bytes: string)
    requires Sound(s) && s.point.Running?
    ensures var t, d := StepAlive(s, Read(bytes)), Decode(s.recv + bytes, s.chunkedSize);
            var u := s.(log := Noted(s, BevRead), recv := d.buf, chunkedSize := d.size, published := s.published + d.out);
            && (!s.chunked ==> t == s.(log := Noted(s, BevRead), recv := "", published := s.published + (s.recv + bytes)))
            && (s.chunked && d.end.Waits? ==> t == u)
            && (s.chunked && d.end.Stops? ==>
                  t == Over(u.(stopped := true, asked := s.asked - {s.connectKey}, events := Chan([], false, true))))
            && (s.chunked && d.end.Throws? ==> t == u.(point := Crashed, events := Chan([], false, false)))
  {
    hide Decode, Post, ConnectBev.DelBev, Owns;
    if s.chunked {
      DecodedWhileRunning(s.(recv := s.recv + bytes));
    } else {
      ReadWhileRunning(s.(recv := s.recv + bytes));
    }
  }

  lemma ReadWhileRunning(s: Relay)
    requires Suspended(s) && s.point.Running? && !s.chunked
    ensures Post(s, BevRead) == s.(log := Noted(s, BevRead), recv := "", published := s.published + s.recv)
  {
    hide Decode, Loop, Post, ConnectBev.DelBev, ConnectBev.DelTimer;
    PostedNow(s, BevRead);
    RestsOpen(s.(point := Active, log := Noted(s, BevRead), events := Chan([], false, false), recv := "",
                 published := s.published + s.recv));
  }

  lemma DecodedWhileRunning(s: Relay)
    requires Suspended(s) && s.point.Running? && s.chunked
    ensures var t, d := Post(s, BevRead), Decode(s.recv, s.chunkedSize);
            var u := s.(log := Noted(s, BevRead), recv := d.buf, chunkedSize := d.size, published := s.published + d.out);
            && (d.end.Waits? ==> t == u)
            && (d.end.Stops? ==>
                  t == Over(u.(stopped := true, asked := s.asked - {s.connectKey}, events := Chan([], false, true))))
            && (d.end.Throws? ==> t == u.(point := Crashed, events := Chan([], false, false)))
  {
    hide Decode, Loop, Post, ConnectBev.DelBev, ConnectBev.DelTimer;
    TimersGoFirst(s.conns, s.connectKey);
    var d := Decode(s.recv, s.chunkedSize);
    PostedNow(s, BevRead);
    var w := s.(point := Active, log := Noted(s, BevRead), recv := d.buf, chunkedSize := d.size,
                published := s.published + d.out);
    RestsOpen(w.(events := Chan([], false, false)));
    RestsClosed(w.(events := Chan([], false, true), stopped := true, asked := s.asked - {s.connectKey}, armed := false,
                   conns := ConnectBev.DelTimer(s.conns, s.connectKey)));
  }

  // ----- Stopping, and what is only queued -----

  /** Stopping ends a running relay; any other stays where it is, without callbacks or timers, withdrawn, and
      with its channel closed. */
  lemma StoppedExactly(s: Relay)
    requires Sound(s) && !s.point.Crashed?
    ensures var t, u := StepAlive(s, Stop), s.(stopped := true, asked := s.asked - {s.connectKey},
                                               events := Chan(s.events.queue, false, true));
            && (s.point.Running? ==> t == Over(u))
            && (!s.point.Running? ==> t == u.(armed := false, conns := ConnectBev.DelTimer(s.conns, s.connectKey)))
  {
    TimersGoFirst(s.conns, s.connectKey);
  }

  /** Without callbacks nothing is heard of the connection, and without a timer none fires; what does not
      answer the relay where it waits is queued. */
  lemma OthersAreQueued(s: Relay, connected: bool, named: string, bytes: string, reply: CasterReply, dial: ConnectBev.Dial)
    requires Sound(s) && !s.point.Running?
    ensures !s.point.Asleep? ==> StepAlive(s, Fires(dial)) == s
    ensures !s.armed ==> StepAlive(s, Event(connected, named)) == s && StepAlive(s, Read(bytes)) == s
    ensures s.armed && !s.point.Connecting? ==>
              StepAlive(s, Event(connected, named))
              == s.(events := s.events.(queue := s.events.queue + [BevEvent(connected)]), log := Noted(s, BevEvent(connected)))
    ensures s.armed && !s.point.Handshaking? ==>
              StepAlive(s, Read(bytes))
              == s.(recv := s.recv + bytes, events := s.events.(queue := s.events.queue + [BevRead]), log := Noted(s, BevRead))
    ensures !s.point.Registering? ==>
              StepAlive(s, Reply(reply))
              == s.(events := s.events.(queue := s.events.queue + [RegisterEvent(reply)]), log := Noted(s, RegisterEvent(reply)))
  {}

  /** Draining takes the queue event by event: a change of the connection and a registration error end the
      session and with it the rest of the queue, a read publishes, anything else passes by. */
  lemma DrainsInOrder(s: Relay, e: CarrierEvent, q: seq<CarrierEvent>)
    requires s.point.Active? && s.events == Chan([e] + q, false, s.stopped)
    ensures var rest := s.(events := Chan(q, false, s.stopped));
            var (c, wake) := Next(s.events);
            var (d, next) := Next(rest.events);
            var t := Loop(s.(events := c), wake);
            && ((e.BevEvent? || e == RegisterEvent(CasterErr)) && s.stopped ==> t == Over(rest))
            && ((e.BevEvent? || e == RegisterEvent(CasterErr)) && !s.stopped ==>
                  t == Resting(s.(events := Chan([], false, false), asked := s.asked - {s.connectKey})))
            && (!e.BevEvent? && e != RegisterEvent(CasterErr) && !e.BevRead? ==> t == Loop(rest.(events := d), next))
            && (e.BevRead? && !s.chunked ==>
                  t == Loop(rest.(events := d, recv := "", published := s.published + s.recv), next))
  {
    hide Decode, Loop, ConnectBev.DelBev, ConnectBev.DelTimer;
    assert ([e] + q)[1..] == q;
    TimersGoFirst(s.conns, s.connectKey);
    TurnOf(s.(events := Chan(q, false, s.stopped)), e);
  }

  /** Another user of the table changes the table and nothing else; a relay that has crashed the program
      is not changed by anything. */
  lemma NeighboursExactly(s: Relay, op: ConnectBev.Op, i: Input)
    ensures StepAlive(s, Neighbour(op)) == s.(conns := ConnectBev.Apply(s.conns, op))
    ensures Step(s, i) == if s.point.Crashed? then s else StepAlive(s, i)
  {}

  /** A relay starts with a delay of five seconds, without a connection or a registration. */
  lemma StartsFresh(conns: ConnectBev.Conns, key: string, bev: ConnectBev.Bev)
    requires key !in conns.table && key != ""
    ensures var t := Top(Created(conns), ConnectBev.Dialled(key, bev));
            && t.point.Connecting? && !t.stopped && t.retryDelay == 5 && t.connectKey == key && t.bev == Some(bev)
            && t.armed && t.pendingEvent && !t.pendingRead && !t.pendingRegister && t.timers == 0
            && t.events == Chan([], false, false) && t.recv == "" && !t.chunked && t.chunkedSize == 0
            && t.asked == {} && t.published == "" && t.sleeps == [] && t.dialled == {bev}
            && t.log == Log([], []) && t.conns.table == conns.table[key := bev]
            && Top(Created(conns), ConnectBev.Unresolved).sleeps == [5]
  {}
}
