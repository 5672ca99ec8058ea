/** The relay as an object, whose methods do what the functions of `RelayPull` say. */
module RelayCarrier {
  import opened Carrier
  import opened Channel
  import opened ChunkCodec
  import opened Handshake
  import opened Options
  import opened RelayPull
  import ConnectBev

  lemma StopStaysActive(s: Relay)
    requires s.point.Active? && !s.events.waiting
    ensures StopInside(s).point.Active? && !StopInside(s).events.waiting
  {}

  lemma PublishStaysActive(s: Relay, e: CarrierEvent)
    requires s.point.Active? && !s.events.waiting && !Disconnects(e)
    ensures var t := React(s, e); (t.point.Active? || t.point.Crashed?) && !t.events.waiting
  {
    hide Decode, StopInside;
    if e.BevRead? && s.chunked {
      var d := Decode(s.recv, s.chunkedSize);
      StopStaysActive(s.(recv := d.buf, chunkedSize := d.size, published := s.published + d.out));
    }
  }

  lemma LoopTurns(s: Relay, e: CarrierEvent, t: Relay)
    requires t == React(s, e)
    ensures Loop(s, Got(e)) == if !t.point.Active? then t else var (c, next) := Next(t.events); Loop(t.(events := c), next)
  {
    hide React, Next;
  }

  lemma LeavesLoop(s: Relay, wake: Wake<CarrierEvent>)
    requires wake == End || (wake.Got? && Disconnects(wake.event))
    ensures Loop(s, wake) == Leave(s)
  {
    LeaveSettles(s);
  }

  lemma LeaveSettles(s: Relay)
    ensures !Leave(s).point.Active?
  {}

  // ----- The carrier object -----

  class PullRelay {
    const table: ConnectBev.ConnectTable
    const events: EventChannel<CarrierEvent>
    const reader: Reader
    var point: Point
    var stopped: bool
    var retryDelay: nat
    var connectKey: string
    var bev: Option<ConnectBev.Bev>
    var armed: bool
    var pendingEvent: bool
    var pendingRead: bool
    var pendingRegister: bool
    var timers: nat
    var chunked: bool
    var published: string
    ghost var asked: set<string>
    ghost var sleeps: seq<nat>
    ghost var dialled: set<ConnectBev.Bev>
    ghost var log: Log

    ghost function View(): Relay
      reads this, table, events, reader
    {
      Relay(point, stopped, retryDelay, connectKey, bev, table.View(), armed, pendingEvent, pendingRead,
            pendingRegister, timers, events.View(), reader.recv, chunked, reader.chunkedSize, asked,
            published, sleeps, dialled, log)
    }

    ghost predicate Valid()
      reads this, events, reader
    {
      events.Valid() && !reader.stopped && (reader.thrown <==> point.Crashed?)
    }

    constructor (connections: ConnectBev.ConnectTable)
      ensures Valid() && table == connections && fresh(events) && fresh(reader)
      ensures View() == Created(connections.View())
    {
      table := connections;
      events := new EventChannel();
      reader := new Reader();
      point, stopped, retryDelay, connectKey, bev := Active, false, FIRST_DELAY, "", None;
      armed, pendingEvent, pendingRead, pendingRegister, timers := false, false, false, false, 0;
      chunked, published := false, "";
      asked, sleeps, dialled, log := {}, [], {}, Log([], []);
    }

    method ArmCallbacks()
      modifies this`armed, table
      ensures View() == StartBev(old(View()))
    {
      armed := true;
      table.SetTimers(connectKey, 0, 0);
    }

    method DisarmCallbacks()
      modifies this`armed, table
      ensures View() == StopBev(old(View()))
    {
      armed := false;
      table.DelTimers(connectKey);
    }

    method DestroyBev()
      modifies this`armed, this`bev, table
      ensures View() == Destroy(old(View()))
    {
      var _ := table.Del(connectKey);
      bev := None;
      armed := false;
    }

    method SleepNow()
      modifies this`point, this`timers, this`sleeps
      ensures View() == Sleep(old(View()))
    {
      sleeps := sleeps + [retryDelay];
      timers := timers + 1;
      point := Asleep;
    }

    method Retry()
      modifies this, table
      ensures View() == Sleep(Destroy(old(View())))
    {
      DestroyBev();
      SleepNow();
    }

    method FinishRun()
      modifies this, table
      ensures View() == Finish(old(View()))
    {
      DestroyBev();
      point := Finished;
    }

    method AwaitEvent()
      modifies this`point, this`pendingEvent
      ensures View() == old(View()).(point := Connecting, pendingEvent := true)
    {
      pendingEvent := true;
      point := Connecting;
    }

    /** `create_bev` has stored the connection under `connectKey`. */
    method WaitForConnection()
      modifies this, table
      ensures View() == StartBev(old(View()).(bev := ConnectBev.GetBev(old(table.View()), connectKey),
                                              point := Connecting, pendingEvent := true))
    {
      bev := table.Get(connectKey);
      AwaitEvent();
      ArmCallbacks();
    }

    method DialOut(dial: ConnectBev.Dial)
      modifies this`connectKey, this`dialled, table
      ensures var (c, key) := ConnectBev.NewDialled(old(View()).conns, dial);
              View() == old(View()).(conns := c, connectKey := key, dialled := old(dialled) + BevsOf(dial))
    {
      hide ConnectBev.NewDialled;
      connectKey := table.NewFromDial(dial);
      dialled := dialled + BevsOf(dial);
    }

    /** The top of the reconnect loop, up to the next suspension. */
    method TryConnect(dial: ConnectBev.Dial)
      requires Valid() && point.Active?
      modifies this, table
      ensures Valid() && View() == Top(old(View()), dial)
    {
      hide ConnectBev.NewDialled, ConnectBev.DelBev, ConnectBev.SetTimer, ConnectBev.GetBev;
      if stopped {
        FinishRun();
      } else {
        DialOut(dial);
        if connectKey == "" {
          SleepNow();
        } else {
          WaitForConnection();
        }
      }
    }

    /** The connection is up: its key is computed again, and the request is sent. */
    method SendRequest(named: string)
      modifies this, table
      ensures View() == AfterConnect(old(View()), true, named)
    {
      var newKey := table.Recalculate(connectKey, named);
      if newKey != connectKey {
        connectKey := newKey;
        bev := table.Get(connectKey);
      }
      pendingRead := true;
      point := Handshaking;
    }

    /** The connection has reported an event. */
    method HandleConnect(connected: bool, named: string)
      modifies this, table
      ensures View() == AfterConnect(old(View()), connected, named)
    {
      if connected {
        SendRequest(named);
      } else {
        Retry();
      }
    }

    /** Asks the core to register the relay. */
    method AskCore(transferChunked: bool)
      modifies this`chunked, this`pendingRegister, this`point, this`asked
      ensures View() == old(View()).(chunked := transferChunked, point := Registering, pendingRegister := true,
                                     asked := old(asked) + {connectKey})
    {
      chunked := transferChunked;
      asked := asked + {connectKey};
      pendingRegister := true;
      point := Registering;
    }

    /** The handshake has been answered. */
    method HandleHandshake(resp: string)
      modifies this, table
      ensures View() == AfterHandshake(old(View()), resp)
    {
      hide VerifyResponse, ConnectBev.DelBev;
      var verdict := if resp == "" then Refused else VerifyResponse(resp);
      if verdict.Refused? {
        Retry();
      } else {
        AskCore(verdict.chunked);
      }
    }

    /** `stop()` up to closing the channel. */
    method BeginStop()
      modifies this, table
      ensures View() == Stopping(old(View()))
    {
      stopped := true;
      DisarmCallbacks();
      asked := asked - {connectKey};
    }

    method StopSelf()
      requires Valid() && point.Active? && !events.waiter
      modifies this, table, events
      ensures Valid() && View() == StopInside(old(View()))
    {
      BeginStop();
      var _ := events.CloseChannel();
    }

    method ReadAndPublish()
      requires Valid() && point.Active? && !events.waiter
      modifies this, table, events, reader
      ensures Valid() && View() == Publish(old(View()))
    {
      hide Decode, StopInside;
      if chunked {
        var data := reader.ReadDataFromChunk();
        published := published + data;
        if reader.thrown {
          point := Crashed;
        } else if reader.stopped {
          reader.stopped := false;
          StopSelf();
        }
      } else {
        published := published + reader.recv;
        reader.recv := "";
      }
    }

    /** Behind the event loop. */
    method LeaveSession()
      requires Valid() && point.Active?
      modifies this, table, events
      ensures Valid() && View() == Leave(old(View()))
    {
      if stopped {
        FinishRun();
        return;
      }
      DisarmCallbacks();
      asked := asked - {connectKey};
      DestroyBev();
      events.Reset();
      SleepNow();
    }

    /** One turn of the event loop. */
    method Handle(e: CarrierEvent)
      requires Valid() && point.Active? && !events.waiter
      modifies this, table, events, reader
      ensures Valid() && View() == React(old(View()), e)
    {
      if Disconnects(e) {
        LeaveSession();
      } else if e.BevRead? {
        ReadAndPublish();
      }
    }

    method AskForEvent() returns (next: Wake<CarrierEvent>)
      requires Valid() && !events.waiter
      modifies events
      ensures Valid() && (events.waiter <==> next.NoWake?)
      ensures |events.queue| + (if next.Got? then 1 else 0) == old(|events.queue|)
      ensures (View().events, next) == Next(old(View()).events) && View() == old(View()).(events := View().events)
    {
      next := events.AwaitNext();
    }

    /** One turn of the event loop: reacts to an event, and asks for the next one unless the program has
        ended. */
    method Turn(e: CarrierEvent) returns (next: Wake<CarrierEvent>)
      requires Valid() && point.Active? && !events.waiter && !Disconnects(e)
      modifies this, table, events, reader
      ensures Valid() && (point.Active? || point.Crashed?) && (point.Active? ==> (events.waiter <==> next.NoWake?))
      ensures |events.queue| + (if next.Got? then 1 else 0) <= old(|events.queue|)
      ensures Loop(old(View()), Got(e)) == if point.Active? then Loop(View(), next) else View()
    {
      hide React, Loop, Next;
      Handle(e);
      ghost var t := View();
      PublishStaysActive(old(View()), e);
      LoopTurns(old(View()), e, t);
      next := NoWake;
      if point.Active? {
        next := AskForEvent();
      }
    }

    /** The event loop of the coroutine, from the event in hand until it waits or leaves, or the program ends. */
    method RunLoop(first: Wake<CarrierEvent>)
      requires Valid() && point.Active? && (events.waiter <==> first.NoWake?)
      modifies this, table, events, reader
      ensures Valid() && View() == Loop(old(View()), first)
    {
      hide React, Leave;
      var wake := first;
      while point.Active? && wake.Got? && !Disconnects(wake.event)
        invariant Valid() && (point.Active? || point.Crashed?) && (point.Active? ==> (events.waiter <==> wake.NoWake?))
        invariant (if point.Active? then Loop(View(), wake) else View()) == Loop(old(View()), first)
        decreases |events.queue| + if wake.Got? then 1 else 0
      {
        wake := Turn(wake.event);
      }
      if point.Crashed? {
        return;
      }
      if wake.NoWake? {
        point := Running;
      } else {
        ghost var s := View();
        LeaveSession();
        LeavesLoop(s, wake);
      }
    }

    method Activate()
      modifies this`point
      ensures View() == old(View()).(point := Active)
    {
      point := Active;
    }

    /** The channel has resumed the coroutine, or has not. */
    method Resume(wake: Wake<CarrierEvent>)
      requires Valid() && !point.Crashed? && (wake.NoWake? || (point.Running? && !events.waiter))
      modifies this, table, events, reader
      ensures Valid() && View() == Woken(old(View()), wake)
    {
      if !wake.NoWake? {
        Activate();
        RunLoop(wake);
      }
    }

    method Record(e: CarrierEvent) returns (wake: Wake<CarrierEvent>)
      requires Valid()
      modifies this`log, events
      ensures Valid() && (!wake.NoWake? ==> old(events.waiter) && !events.waiter)
      ensures var (c, w) := Push(old(View()).events, e);
              w == wake && View() == old(View()).(events := c, log := Log(old(log).results, old(log).posted + [e]))
    {
      log := Log(log.results, log.posted + [e]);
      wake := events.PushEvent(e);
    }

    method PostEvent(e: CarrierEvent)
      requires Valid() && !point.Crashed? && (events.waiter ==> point.Running?)
      modifies this, table, events, reader
      ensures Valid() && View() == Post(old(View()), e)
    {
      var wake := Record(e);
      Resume(wake);
    }

    /** A one-shot callback resumes the coroutine where it waits. */
    method ResumeAt(at: Point, e: CarrierEvent)
      requires point == at
      modifies this`point, this`log
      ensures View() == Resumed(old(View()), at, e)
    {
      log := Log(log.results + [e], log.posted);
      point := Active;
    }

    method ResumeAfterEvent(connected: bool, named: string)
      requires pendingEvent && point.Connecting?
      modifies this, table
      ensures View() == EventCb(old(View()), connected, named)
    {
      pendingEvent := false;
      ResumeAt(Connecting, BevEvent(connected));
      ghost var woken := Resumed(old(View()).(pendingEvent := false), Connecting, BevEvent(connected));
      assert View() == woken;
      HandleConnect(connected, named);
      assert View() == AfterConnect(woken, connected, named);
    }

    method BevEventCb(connected: bool, named: string)
      requires Valid() && Suspended(View()) && !point.Crashed?
      modifies this, table, events, reader
      ensures Valid() && View() == EventCb(old(View()), connected, named)
    {
      if pendingEvent {
        ResumeAfterEvent(connected, named);
      } else {
        PostEvent(BevEvent(connected));
      }
    }

    /** The handshake takes the whole buffer. */
    method ResumeAfterRead(bytes: string)
      requires pendingRead && point.Handshaking?
      modifies this, table, reader`recv
      ensures View() == ReadCb(old(View()), bytes)
    {
      var resp := reader.recv + bytes;
      reader.recv := "";
      pendingRead := false;
      ResumeAt(Handshaking, BevRead);
      ghost var woken := Resumed(old(View()).(recv := "", pendingRead := false), Handshaking, BevRead);
      assert View() == woken;
      HandleHandshake(resp);
      assert View() == AfterHandshake(woken, resp);
    }

    method BevReadCallback(bytes: string)
      requires Valid() && Suspended(View()) && !point.Crashed?
      modifies this, table, events, reader
      ensures Valid() && View() == ReadCb(old(View()), bytes)
    {
      if pendingRead {
        ResumeAfterRead(bytes);
      } else {
        reader.Receive(bytes);
        PostEvent(BevRead);
      }
    }

    method EnterLoop()
      requires Valid() && point.Active? && !events.waiter
      modifies this, table, events, reader
      ensures Valid()
      ensures View() == (var (c, wake) := Next(old(View()).events); Loop(old(View()).(events := c), wake))
    {
      var wake := events.AwaitNext();
      ghost var entered := old(View()).(events := events.View());
      assert View() == entered;
      RunLoop(wake);
    }

    method ResetPace()
      modifies this`retryDelay, this`sleeps
      ensures View() == old(View()).(retryDelay := FIRST_DELAY, sleeps := [])
    {
      retryDelay := FIRST_DELAY;
      sleeps := [];
    }

    /** The registration has succeeded: the relay runs. */
    method BeginSession()
      requires Valid() && point.Active? && !events.waiter
      modifies this, table, events, reader
      ensures Valid() && View() == AfterRegister(old(View()), CasterOk)
    {
      ResetPace();
      ArmCallbacks();
      EnterLoop();
    }

    method HandleReply(reply: CasterReply)
      requires Valid() && point.Active? && !events.waiter
      modifies this, table, events, reader
      ensures Valid() && View() == AfterRegister(old(View()), reply)
    {
      if reply == CasterOk {
        BeginSession();
      } else {
        Retry();
      }
    }

    method ResumeAfterReply(reply: CasterReply)
      requires Valid() && pendingRegister && point.Registering? && !events.waiter
      modifies this, table, events, reader
      ensures Valid() && View() == RegisterCb(old(View()), reply)
    {
      pendingRegister := false;
      ResumeAt(Registering, RegisterEvent(reply));
      ghost var woken := Resumed(old(View()).(pendingRegister := false), Registering, RegisterEvent(reply));
      assert View() == woken;
      HandleReply(reply);
      assert View() == AfterRegister(woken, reply);
    }

    method CasterRegisterCb(reply: CasterReply)
      requires Valid() && Suspended(View()) && !point.Crashed?
      modifies this, table, events, reader
      ensures Valid() && View() == RegisterCb(old(View()), reply)
    {
      if pendingRegister {
        ResumeAfterReply(reply);
      } else {
        PostEvent(RegisterEvent(reply));
      }
    }

    method WakeUp()
      requires timers > 0
      modifies this`timers, this`point, this`retryDelay
      ensures View() == old(View()).(timers := old(timers) - 1, point := Active, retryDelay := Backoff(old(retryDelay)))
    {
      timers := timers - 1;
      point := Active;
      retryDelay := Backoff(retryDelay);
    }

    method TimerFires(dial: ConnectBev.Dial)
      requires Valid() && timers > 0 && point.Asleep?
      modifies this, table
      ensures Valid() && View() == TimerCb(old(View()), dial)
    {
      hide Top;
      WakeUp();
      ghost var woken := old(View()).(timers := old(timers) - 1, point := Active, retryDelay := Backoff(old(retryDelay)));
      assert View() == woken;
      TryConnect(dial);
      assert View() == Top(woken, dial);
    }

    method StopCarrier()
      requires Valid() && Suspended(View()) && !point.Crashed?
      modifies this, table, events, reader
      ensures Valid() && View() == StopOutside(old(View()))
    {
      BeginStop();
      var wake := events.CloseChannel();
      Resume(wake);
    }

    // ----- Whole runs -----

    method Take(i: Input)
      requires Valid() && Sound(View()) && !point.Crashed?
      modifies this, table, events, reader
      ensures Valid() && View() == StepAlive(old(View()), i)
    {
      hide Settled, Owns, TimerCb, EventCb, ReadCb, RegisterCb, StopOutside, ConnectBev.Apply;
      match i {
        case Fires(dial) => if timers > 0 { TimerFires(dial); } else { NoTimer(View(), dial); }
        case Event(connected, named) => if armed { BevEventCb(connected, named); }
        case Read(bytes) => if armed { BevReadCallback(bytes); }
        case Reply(reply) => CasterRegisterCb(reply);
        case Stop => StopCarrier();
        case Neighbour(op) => table.Perform(op);
      }
    }

    /** A whole run of the object is the run of its specification, and leaves it sound. */
    method Drive(inputs: seq<Input>)
      requires Valid() && Sound(View()) && FreshInputs(View(), inputs)
      modifies this, table, events, reader
      ensures Valid() && Sound(View()) && View() == After(old(View()), inputs)
    {
      hide StepAlive, Sound, FreshInput;
      for k := 0 to |inputs|
        invariant Valid() && Sound(View())
        invariant View() == After(old(View()), inputs[..k])
      {
        FreshBefore(old(View()), inputs, k);
        assert inputs[..k + 1][..k] == inputs[..k];
        StepIsSound(View(), inputs[k]);
        if !point.Crashed? {
          Take(inputs[k]);
        }
      }
      assert inputs[..|inputs|] == inputs;
    }

    /** A relay is made beside other connections, starts, and runs. */
    static method RunFrom(connections: ConnectBev.ConnectTable, dial: ConnectBev.Dial, inputs: seq<Input>) returns (relay: PullRelay)
      requires Healthy(connections.View()) && FreshDial(connections.View(), dial)
      requires FreshInputs(Top(Created(connections.View()), dial), inputs)
      modifies connections
      ensures fresh(relay) && relay.Valid() && Sound(relay.View())
      ensures relay.View() == Run(old(connections.View()), dial, inputs)
    {
      hide Top, Sound, Healthy, FreshInputs, After;
      StartIsSound(connections.View(), dial);
      relay := new PullRelay(connections);
      relay.TryConnect(dial);
      relay.Drive(inputs);
    }
  }

  lemma NoTimer(s: Relay, dial: ConnectBev.Dial)
    requires s.timers == 0
    ensures TimerCb(s, dial) == s
  {}
}
