/** The coroutine of a base station that uploads data, with the callbacks that resume it or post to its
    event channel. */
module ServerNtrip {
  import opened Carrier
  import opened Channel
  import opened ChunkCodec
  import opened Draining

  /** Where the coroutine is. It runs while `Active`; `Crashed` is the end of the program by an exception
      that the coroutine does not catch; `Misled` is a resumption of a coroutine that is not suspended at
      that place. */
  datatype Point = AwaitAuth | AwaitRegister | Running | Finished | Crashed | Active | Misled

  /** The fields of the carrier, the bytes received and published, the requests to destroy it that its
      `stop()` has queued, the greetings sent, whether the core has been asked to register it and has not
      been asked to withdraw that since, and the results its awaits and its channel have returned. */
  datatype Server = Server(
    chunked: bool, point: Point, pendingAuth: bool, pendingRegister: bool, events: Chan<CarrierEvent>,
    recv: string, chunkedSize: SizeT, received: string, published: string, destroys: nat,
    greetings: nat, recorded: bool, results: seq<CarrierEvent>, got: seq<CarrierEvent>)

  // ----- The coroutine, from one suspension to the next -----

  /** `run()` up to its first suspension. */
  function Started(chunked: bool): Server {
    Server(chunked, AwaitAuth, true, false, Empty(), "", 0, "", "", 0, 0, false, [], [])
  }

  /** `stop()` called by the coroutine itself. It withdraws only what has been asked for. */
  function StopInside(s: Server): Server {
    var (c, wake) := Close(s.events);
    s.(events := c, destroys := s.destroys + 1, recorded := false,
       point := if wake.NoWake? then s.point else Misled)
  }

  function Return(s: Server): Server {
    if s.point.Active? then s.(point := Finished) else s
  }

  /** Reads what has arrived and publishes it. The chunk decoder may call `stop()`, or throw. */
  function Publish(s: Server): Server {
    if !s.chunked then s.(published := s.published + s.recv, recv := "")
    else
      var d := Decode(s.recv, s.chunkedSize);
      var t := s.(recv := d.buf, chunkedSize := d.size, published := s.published + d.out);
      match d.end
      case Waits => t
      case Stops => StopInside(t)
      case Throws => t.(point := Crashed)
  }

  /** An event that ends the session. */
  predicate Ends(e: CarrierEvent) {
    match e
    case AuthEvent(reply) => reply != AuthOk
    case RegisterEvent(reply) => reply == CasterErr
    case BevEvent(_) => true
    case _ => false
  }

  function React(s: Server, e: CarrierEvent): (t: Server)
    ensures |t.events.queue| <= |s.events.queue|
  {
    if e.BevRead? then Publish(s)
    else if Ends(e) then Return(StopInside(s))
    else s
  }

  /** The event loop, given what `next()` returns, until it waits or leaves. */
  function Loop(s: Server, wake: Wake<CarrierEvent>): Server
    decreases |s.events.queue|, if wake.Got? then 1 else 0
  {
    match wake
    case NoWake => s.(point := Running)
    case End => Return(s)
    case Got(e) =>
      var t := React(s.(got := s.got + [e]), e);
      if !t.point.Active? then t
      else
        var (c, next) := Next(t.events);
        Loop(t.(events := c), next)
  }

  function AfterAuth(s: Server, reply: AuthReply): Server {
    var t := s.(results := s.results + [AuthEvent(reply)]);
    if reply != AuthOk then Return(StopInside(t))
    else t.(point := AwaitRegister, pendingRegister := true, recorded := true)
  }

  function AfterRegister(s: Server, reply: CasterReply): Server {
    var t := s.(results := s.results + [RegisterEvent(reply)]);
    if reply != CasterOk then Return(StopInside(t))
    else
      var (c, wake) := Next(t.events);
      Loop(t.(greetings := t.greetings + 1, events := c), wake)
  }

  // ----- The callbacks -----

  /** The channel has resumed the coroutine with `wake`, or has not. */
  function Woken(s: Server, wake: Wake<CarrierEvent>): Server {
    if wake.NoWake? then s
    else if s.point.Running? then Loop(s.(point := Active), wake)
    else s.(point := Misled)
  }

  function Post(s: Server, e: CarrierEvent): Server {
    var (c, wake) := Push(s.events, e);
    Woken(s.(events := c), wake)
  }

  function AuthCb(s: Server, reply: AuthReply): Server {
    if !s.pendingAuth then Post(s, AuthEvent(reply))
    else
      var t := s.(pendingAuth := false);
      if t.point.AwaitAuth? then AfterAuth(t.(point := Active), reply) else t.(point := Misled)
  }

  function RegisterCb(s: Server, reply: CasterReply): Server {
    if !s.pendingRegister then Post(s, RegisterEvent(reply))
    else
      var t := s.(pendingRegister := false);
      if t.point.AwaitRegister? then AfterRegister(t.(point := Active), reply) else t.(point := Misled)
  }

  function ReadCb(s: Server, bytes: string): Server {
    Post(s.(recv := s.recv + bytes, received := s.received + bytes), BevRead)
  }

  /** `stop()` called from outside. */
  function StopOutside(s: Server): Server {
    var (c, wake) := Close(s.events);
    Woken(s.(events := c, destroys := s.destroys + 1, recorded := false), wake)
  }

  /** What can happen to a carrier: bytes arrive, another callback is called, or it is stopped. */
  datatype Input = Read(bytes: string) | Callback(event: CarrierEvent) | Stop

  /** Nothing happens to a carrier any more once the program has ended. */
  function Step(s: Server, i: Input): Server {
    if s.point.Crashed? then s else StepAlive(s, i)
  }

  function StepAlive(s: Server, i: Input): Server {
    match i
    case Read(bytes) => ReadCb(s, bytes)
    case Callback(AuthEvent(reply)) => AuthCb(s, reply)
    case Callback(RegisterEvent(reply)) => RegisterCb(s, reply)
    case Callback(e) => Post(s, e)
    case Stop => StopOutside(s)
  }

  function After(s: Server, inputs: seq<Input>): Server {
    if |inputs| == 0 then s
    else Step(After(s, inputs[..|inputs| - 1]), inputs[|inputs| - 1])
  }

  function Run(chunked: bool, inputs: seq<Input>): Server {
    After(Started(chunked), inputs)
  }

  // ----- What every run keeps -----

  /** The bytes received are the bytes published followed by the bytes in the buffer. */
  predicate BytesKept(s: Server) {
    s.chunked || s.received == s.published + s.recv
  }

  /** While the coroutine is suspended, exactly the handle of the place where it waits is stored. */
  predicate Suspended(s: Server) {
    && ChanOk(s.events)
    && !s.point.Active? && !s.point.Misled?
    && (s.pendingAuth <==> s.point.AwaitAuth?)
    && (s.pendingRegister <==> s.point.AwaitRegister?)
    && (s.events.waiting <==> s.point.Running?)
    && (s.point.Finished? ==> s.events.closed) && (s.point.Crashed? ==> s.chunked)
    && (s.events.closed <==> s.destroys > 0)
  }

  /** While the coroutine runs, no handle is stored. */
  predicate Executing(s: Server) {
    && s.point.Active? && !s.pendingAuth && !s.pendingRegister && !s.events.waiting
    && (s.events.closed <==> s.destroys > 0)
  }

  /** Bytes wait in the buffer only while an event that reads them waits in the channel. */
  predicate ReadAnnounced(s: Server) {
    s.chunked || s.recv == "" || BevRead in s.events.queue || s.point.Finished?
  }

  /** What holds whenever the coroutine is suspended or has finished. */
  predicate Sound(s: Server) {
    Suspended(s) && BytesKept(s) && ReadAnnounced(s)
  }

  function Handed(wake: Wake<CarrierEvent>): seq<CarrierEvent> {
    if wake.Got? then [wake.event] else []
  }

  /** The same carrier goes on: nothing it has received, awaited or greeted changes. */
  predicate SameCarrier(s: Server, t: Server) {
    && t.chunked == s.chunked && t.received == s.received && t.results == s.results
    && t.greetings == s.greetings && !t.pendingAuth && !t.pendingRegister
  }

  /** Reacting to an event leaves the coroutine running, or finished and closed. */
  lemma ReactKeeps(s: Server, e: CarrierEvent)
    requires Executing(s) && BytesKept(s)
    requires ReadAnnounced(s) || e.BevRead?
    ensures var t := React(s, e);
            && SameCarrier(s, t) && BytesKept(t) && ReadAnnounced(t)
            && t.got == s.got && t.events.queue == s.events.queue
            && (Executing(t) || (Suspended(t) && (t.point.Finished? || t.point.Crashed?)))
  {}

  /** What `next()` has returned to the running coroutine. */
  predicate Returned(s: Server, wake: Wake<CarrierEvent>) {
    && BytesKept(s) && (ReadAnnounced(s) || wake == Got(BevRead))
    && s.point.Active? && !s.pendingAuth && !s.pendingRegister
    && ChanOk(s.events) && (s.events.waiting <==> wake.NoWake?)
    && (s.events.closed <==> s.destroys > 0) && (wake.End? ==> s.events.closed)
  }

  lemma NextReturns(s: Server)
    requires Executing(s) && BytesKept(s) && ReadAnnounced(s)
    ensures var (c, wake) := Next(s.events);
            && Returned(s.(events := c), wake)
            && s.events.queue == Handed(wake) + c.queue
  {}

  lemma LoopGoesOn(t: Server, c: Chan<CarrierEvent>, next: Wake<CarrierEvent>)
    requires t.events.queue == Handed(next) + c.queue
    ensures |c.queue| + |Handed(next)| == |t.events.queue|
    ensures t.got + t.events.queue == t.got + Handed(next) + c.queue
  {}

  /** The loop suspends in the channel or finishes, and the events it has got are followed by those
      still queued. */
  lemma {:induction false} LoopIsSound(s: Server, wake: Wake<CarrierEvent>)
    requires Returned(s, wake)
    ensures var t := Loop(s, wake);
            && Sound(t) && !t.point.AwaitAuth? && !t.point.AwaitRegister? && SameCarrier(s, t)
            && t.got + t.events.queue == s.got + Handed(wake) + s.events.queue
    decreases |s.events.queue|, if wake.Got? then 1 else 0
  {
    match wake {
      case NoWake =>
      case End =>
      case Got(e) =>
        var t := React(s.(got := s.got + [e]), e);
        ReactKeeps(s.(got := s.got + [e]), e);
        if t.point.Active? {
          NextReturns(t);
          var (c, next) := Next(t.events);
          LoopGoesOn(t, c, next);
          LoopIsSound(t.(events := c), next);
        }
    }
  }

  // ----- The carrier object -----

  class Station {
    const chunked: bool
    const events: EventChannel<CarrierEvent>
    const reader: Reader
    var point: Point
    var pendingAuth: bool
    var pendingRegister: bool
    var published: string
    var destroys: nat
    var greetings: nat
    ghost var received: string
    ghost var recorded: bool
    ghost var results: seq<CarrierEvent>
    ghost var got: seq<CarrierEvent>

    ghost function View(): Server
      reads this, events, reader
    {
      Server(chunked, point, pendingAuth, pendingRegister, events.View(), reader.recv, reader.chunkedSize,
             received, published, destroys, greetings, recorded, results, got)
    }

    ghost predicate Valid()
      reads this, events, reader
    {
      events.Valid() && !reader.stopped && (reader.thrown <==> point.Crashed?)
    }

    constructor (chunkedTransfer: bool)
      ensures Valid() && View() == Started(chunkedTransfer)
      ensures fresh(events) && fresh(reader)
    {
      chunked := chunkedTransfer;
      events := new EventChannel();
      reader := new Reader();
      point, pendingAuth, pendingRegister := AwaitAuth, true, false;
      published, destroys, greetings := "", 0, 0;
      received, recorded, results, got := "", false, [], [];
    }

    /** `stop()` while the coroutine itself runs. */
    method StopSelf()
      requires Valid() && Executing(View())
      modifies this, events
      ensures Valid() && View() == StopInside(old(View()))
    {
      var _ := events.CloseChannel();
      destroys := destroys + 1;
      recorded := false;
    }

    method ReadAndPublish()
      requires Valid() && Executing(View())
      modifies this, events, reader
      ensures Valid() && View() == Publish(old(View()))
    {
      if chunked {
        var data := reader.ReadDataFromChunk();
        if reader.thrown {
          point := Crashed;
        } else if reader.stopped {
          reader.stopped := false;
          StopSelf();
        }
        published := published + data;
      } else {
        published := published + reader.recv;
        reader.recv := "";
      }
    }

    /** One turn of the event loop; `left` says that the coroutine has returned. */
    method Handle(e: CarrierEvent) returns (left: bool)
      requires Valid() && Executing(View())
      modifies this, events, reader
      ensures Valid() && View() == React(old(View()).(got := old(View()).got + [e]), e)
      ensures left <==> !point.Active?
    {
      got := got + [e];
      left := false;
      if e.BevRead? {
        ReadAndPublish();
        left := point.Crashed?;
      } else if Ends(e) {
        Quit();
        left := true;
      }
    }

    /** The event loop of the coroutine, from the event in hand until it waits or leaves. */
    method RunLoop(first: Wake<CarrierEvent>)
      requires Valid() && Returned(View(), first)
      modifies this, events, reader
      ensures Valid() && View() == Loop(old(View()), first)
    {
      var wake := first;
      while wake.Got?
        invariant Valid() && Returned(View(), wake)
        invariant Loop(View(), wake) == Loop(old(View()), first)
        decreases |events.queue|, if wake.Got? then 1 else 0
      {
        ReactKeeps(View().(got := got + [wake.event]), wake.event);
        var left := Handle(wake.event);
        if left {
          return;
        }
        NextReturns(View());
        wake := events.AwaitNext();
      }
      point := if wake.NoWake? then Running else Finished;
    }

    method Enter()
      requires Valid() && Executing(View()) && BytesKept(View()) && ReadAnnounced(View())
      modifies this, events, reader
      ensures Valid()
      ensures var (c, wake) := Next(old(View()).events); View() == Loop(old(View()).(events := c), wake)
    {
      NextReturns(View());
      var wake := events.AwaitNext();
      RunLoop(wake);
    }

    method PostEvent(e: CarrierEvent)
      requires Valid() && Suspended(View()) && !point.Crashed? && BytesKept(View()) && (ReadAnnounced(View()) || e.BevRead?)
      modifies this, events, reader
      ensures Valid() && View() == Post(old(View()), e)
    {
      var wake := events.PushEvent(e);
      if wake.Got? {
        point := Active;
        RunLoop(wake);
      }
    }

    method AuthLoginCb(reply: AuthReply)
      requires Valid() && Sound(View()) && !point.Crashed?
      modifies this, events, reader
      ensures Valid() && View() == AuthCb(old(View()), reply)
    {
      if !pendingAuth {
        PostEvent(AuthEvent(reply));
        return;
      }
      pendingAuth := false;
      point := Active;
      results := results + [AuthEvent(reply)];
      if reply != AuthOk {
        Quit();
      } else {
        pendingRegister := true;
        point := AwaitRegister;
        recorded := true;
      }
    }

    ghost method Record(e: CarrierEvent)
      modifies this`results
      ensures View() == old(View()).(results := old(results) + [e])
    {
      results := results + [e];
    }

    /** The registration has succeeded: sends the reply and enters the event loop. */
    method Greet()
      requires Valid() && Executing(View()) && BytesKept(View()) && ReadAnnounced(View())
      modifies this, events, reader
      ensures Valid()
      ensures var (c, wake) := Next(old(View()).events);
              View() == Loop(old(View()).(greetings := old(greetings) + 1, events := c), wake)
    {
      greetings := greetings + 1;
      Enter();
    }

    method Quit()
      requires Valid() && Executing(View())
      modifies this, events
      ensures Valid() && View() == Return(StopInside(old(View())))
    {
      StopSelf();
      point := Finished;
    }

    /** The registration has been answered. */
    method ResumeAfterReply(reply: CasterReply)
      requires Valid() && Executing(View()) && BytesKept(View()) && ReadAnnounced(View())
      modifies this, events, reader
      ensures Valid() && View() == AfterRegister(old(View()), reply)
    {
      Record(RegisterEvent(reply));
      if reply != CasterOk {
        Quit();
      } else {
        Greet();
      }
    }

    method CasterRegisterCb(reply: CasterReply)
      requires Valid() && Sound(View()) && !point.Crashed?
      modifies this, events, reader
      ensures Valid() && View() == RegisterCb(old(View()), reply)
    {
      if pendingRegister {
        pendingRegister := false;
        point := Active;
        ghost var woken := old(View()).(pendingRegister := false, point := Active);
        assert View() == woken;
        ResumeAfterReply(reply);
        assert View() == AfterRegister(woken, reply);
      } else {
        PostEvent(RegisterEvent(reply));
      }
    }

    method BevReadCallback(bytes: string)
      requires Valid() && Sound(View()) && !point.Crashed?
      modifies this, events, reader
      ensures Valid() && View() == ReadCb(old(View()), bytes)
    {
      reader.Receive(bytes);
      received := received + bytes;
      PostEvent(BevRead);
    }

    method OtherCb(e: CarrierEvent)
      requires Valid() && Sound(View()) && !point.Crashed?
      modifies this, events, reader
      ensures Valid() && View() == StepAlive(old(View()), Callback(e))
    {
      match e {
        case AuthEvent(reply) => AuthLoginCb(reply);
        case RegisterEvent(reply) => CasterRegisterCb(reply);
        case _ => PostEvent(e);
      }
    }

    method StopCarrier()
      requires Valid() && Sound(View()) && !point.Crashed?
      modifies this, events, reader
      ensures Valid() && View() == StopOutside(old(View()))
    {
      var wake := events.CloseChannel();
      destroys := destroys + 1;
      recorded := false;
      if !wake.NoWake? {
        point := Active;
        RunLoop(wake);
      }
    }

    /** A whole run of the object is the run of its specification, and leaves it sound. */
    method Drive(inputs: seq<Input>)
      requires Valid() && Sound(View()) && Placed(View())
      modifies this, events, reader
      ensures Valid() && Sound(View()) && Placed(View()) && View() == After(old(View()), inputs)
    {
      hide StepAlive, Sound, Placed;
      for k := 0 to |inputs|
        invariant Valid() && Sound(View()) && Placed(View())
        invariant View() == After(old(View()), inputs[..k])
      {
        assert inputs[..k + 1][..k] == inputs[..k];
        StepIsSound(View(), inputs[k]);
        if !point.Crashed? {
          Take(inputs[k]);
        }
      }
      assert inputs[..|inputs|] == inputs;
    }

    method Take(i: Input)
      requires Valid() && Sound(View()) && !point.Crashed?
      modifies this, events, reader
      ensures Valid() && View() == StepAlive(old(View()), i)
    {
      match i {
        case Read(bytes) => BevReadCallback(bytes);
        case Callback(e) => OtherCb(e);
        case Stop => StopCarrier();
      }
    }
  }

  // ----- Where each callback ends up -----

  function EventOf(i: Input): seq<CarrierEvent> {
    match i
    case Read(_) => [BevRead]
    case Callback(e) => [e]
    case Stop => []
  }

  predicate Authenticated(results: seq<CarrierEvent>) {
    |results| == 1 && results[0] == AuthEvent(AuthOk)
  }

  predicate Registered(results: seq<CarrierEvent>) {
    |results| == 2 && results[0] == AuthEvent(AuthOk) && results[1] == RegisterEvent(CasterOk)
  }

  /** The callbacks that answer an await: the first authentication reply, and if it is positive the
      first registration reply after it. */
  predicate Answers(results: seq<CarrierEvent>, e: CarrierEvent) {
    || (|results| == 0 && e.AuthEvent?)
    || (Authenticated(results) && e.RegisterEvent?)
  }

  function Answered(inputs: seq<Input>): seq<CarrierEvent> {
    if |inputs| == 0 then []
    else
      var results, e := Answered(inputs[..|inputs| - 1]), EventOf(inputs[|inputs| - 1]);
      if |e| == 1 && Answers(results, e[0]) then results + e else results
  }

  /** All other callbacks, in order. */
  function Posted(inputs: seq<Input>): seq<CarrierEvent> {
    if |inputs| == 0 then []
    else
      var front, e := inputs[..|inputs| - 1], EventOf(inputs[|inputs| - 1]);
      if |e| == 1 && Answers(Answered(front), e[0]) then Posted(front) else Posted(front) + e
  }

  function Received(inputs: seq<Input>): string {
    if |inputs| == 0 then ""
    else
      var front, i := inputs[..|inputs| - 1], inputs[|inputs| - 1];
      Received(front) + if i.Read? then i.bytes else ""
  }

  /** The results that the awaits have returned tell where the coroutine is. */
  predicate Placed(s: Server) {
    && (s.point.AwaitAuth? <==> |s.results| == 0)
    && (s.point.AwaitRegister? <==> Authenticated(s.results))
    && (s.point.Running? ==> Registered(s.results))
    && s.greetings == (if Registered(s.results) then 1 else 0)
  }

  ghost predicate Accounts(s: Server, inputs: seq<Input>) {
    && s.results == Answered(inputs) && s.got + s.events.queue == Posted(inputs)
    && s.received == Received(inputs)
  }

  predicate SameSide(s: Server, t: Server) {
    t.results == s.results && t.received == s.received && t.chunked == s.chunked
  }

  lemma WokenIsSound(s: Server, wake: Wake<CarrierEvent>)
    requires Placed(s) && (wake.NoWake? ==> Sound(s))
    requires !wake.NoWake? ==> s.point.Running? && Returned(s.(point := Active), wake)
    ensures var t := Woken(s, wake);
            && Sound(t) && Placed(t) && SameSide(s, t)
            && t.got + t.events.queue == s.got + Handed(wake) + s.events.queue
  {
    if !wake.NoWake? {
      LoopIsSound(s.(point := Active), wake);
    }
  }

  lemma PostIsSound(s: Server, e: CarrierEvent)
    requires Suspended(s) && BytesKept(s) && Placed(s) && (ReadAnnounced(s) || e.BevRead?)
    ensures var t := Post(s, e);
            && Sound(t) && Placed(t) && SameSide(s, t)
            && t.got + t.events.queue == s.got + s.events.queue + [e]
  {
    var (c, wake) := Push(s.events, e);
    WokenIsSound(s.(events := c), wake);
    assert Handed(wake) + c.queue == s.events.queue + [e];
  }

  lemma AuthIsSound(s: Server, reply: AuthReply)
    requires Sound(s) && Placed(s) && s.pendingAuth
    ensures var t := AuthCb(s, reply);
            && Sound(t) && Placed(t) && t.results == s.results + [AuthEvent(reply)]
            && t.got == s.got && t.events.queue == s.events.queue && t.received == s.received && t.chunked == s.chunked
  {}

  lemma GreetedIsSound(u: Server)
    requires Executing(u) && BytesKept(u) && ReadAnnounced(u) && Registered(u.results) && u.greetings == 1
    ensures var (c, wake) := Next(u.events);
            var t := Loop(u.(events := c), wake);
            && Sound(t) && Placed(t) && SameSide(u, t)
            && t.got + t.events.queue == u.got + u.events.queue
  {
    var (c, wake) := Next(u.events);
    NextReturns(u);
    LoopIsSound(u.(events := c), wake);
    LoopGoesOn(u, c, wake);
  }

  lemma RejectedIsSound(s: Server, reply: CasterReply)
    requires Sound(s) && Placed(s) && s.pendingRegister && reply != CasterOk
    ensures var t := RegisterCb(s, reply);
            && Sound(t) && Placed(t) && t.results == s.results + [RegisterEvent(reply)]
            && t.got == s.got && t.events.queue == s.events.queue && t.received == s.received && t.chunked == s.chunked
  {}

  lemma RegisterIsSound(s: Server, reply: CasterReply)
    requires Sound(s) && Placed(s) && s.pendingRegister
    ensures var t := RegisterCb(s, reply);
            && Sound(t) && Placed(t) && t.results == s.results + [RegisterEvent(reply)]
            && t.got + t.events.queue == s.got + s.events.queue && t.received == s.received && t.chunked == s.chunked
  {
    if reply == CasterOk {
      var u := s.(pendingRegister := false, point := Active, results := s.results + [RegisterEvent(reply)],
                  greetings := 1);
      assert Executing(u) && BytesKept(u);
      GreetedIsSound(u);
      var (c, wake) := Next(u.events);
      assert RegisterCb(s, reply) == Loop(u.(events := c), wake);
    } else {
      RejectedIsSound(s, reply);
    }
  }

  lemma StopIsSound(s: Server)
    requires Sound(s) && Placed(s)
    ensures var t := StopOutside(s);
            && Sound(t) && Placed(t) && SameSide(s, t)
            && t.got + t.events.queue == s.got + s.events.queue
            && t.destroys > 0 && (s.point.Running? ==> t.point.Finished?)
  {
    var (c, wake) := Close(s.events);
    WokenIsSound(s.(events := c, destroys := s.destroys + 1), wake);
  }

  /** The callback answered an await if it could, and was posted if not. */
  ghost predicate Routed(s: Server, e: CarrierEvent, t: Server) {
    && Sound(t) && Placed(t)
    && if Answers(s.results, e)
       then t.results == s.results + [e] && t.got + t.events.queue == s.got + s.events.queue
       else t.results == s.results && t.got + t.events.queue == s.got + s.events.queue + [e]
  }

  lemma AuthIsRouted(s: Server, reply: AuthReply)
    requires Sound(s) && Placed(s)
    ensures var t := AuthCb(s, reply);
            Routed(s, AuthEvent(reply), t) && t.chunked == s.chunked && t.received == s.received
  {
    if s.pendingAuth {
      AuthIsSound(s, reply);
    } else {
      PostIsSound(s, AuthEvent(reply));
    }
  }

  lemma RegisterIsRouted(s: Server, reply: CasterReply)
    requires Sound(s) && Placed(s)
    ensures var t := RegisterCb(s, reply);
            Routed(s, RegisterEvent(reply), t) && t.chunked == s.chunked && t.received == s.received
  {
    if s.pendingRegister {
      RegisterIsSound(s, reply);
    } else {
      PostIsSound(s, RegisterEvent(reply));
    }
  }

  lemma PostIsRouted(s: Server, e: CarrierEvent)
    requires Sound(s) && Placed(s) && !e.AuthEvent? && !e.RegisterEvent?
    ensures var t := Post(s, e); Routed(s, e, t) && t.chunked == s.chunked && t.received == s.received
  {
    PostIsSound(s, e);
  }

  lemma ReadIsRouted(s: Server, bytes: string)
    requires Sound(s) && Placed(s)
    ensures var t := ReadCb(s, bytes);
            Routed(s, BevRead, t) && t.chunked == s.chunked && t.received == s.received + bytes
  {
    PostIsSound(s.(recv := s.recv + bytes, received := s.received + bytes), BevRead);
  }

  lemma CallbackIsRouted(s: Server, e: CarrierEvent)
    requires Sound(s) && Placed(s)
    ensures var t := StepAlive(s, Callback(e)); Routed(s, e, t) && t.chunked == s.chunked && t.received == s.received
  {
    hide AuthCb, RegisterCb, Post, Sound, Placed, Routed;
    match e {
      case AuthEvent(reply) => AuthIsRouted(s, reply);
      case RegisterEvent(reply) => RegisterIsRouted(s, reply);
      case _ => PostIsRouted(s, e);
    }
  }

  lemma StepIsSound(s: Server, i: Input)
    requires Sound(s) && Placed(s)
    ensures Sound(StepAlive(s, i)) && Placed(StepAlive(s, i))
  {
    hide AuthCb, RegisterCb, ReadCb, StopOutside, Post, Sound, Placed;
    match i {
      case Read(bytes) => ReadIsRouted(s, bytes);
      case Callback(e) => CallbackIsRouted(s, e);
      case Stop => StopIsSound(s);
    }
  }

  lemma StepIsAccounted(front: seq<Input>, s: Server, i: Input, inputs: seq<Input>)
    requires Sound(s) && Placed(s) && Accounts(s, front)
    requires |inputs| > 0 && front == inputs[..|inputs| - 1] && i == inputs[|inputs| - 1]
    ensures var t := StepAlive(s, i); t.chunked == s.chunked && Sound(t) && Placed(t) && Accounts(t, inputs)
  {
    hide AuthCb, RegisterCb, ReadCb, StopOutside, Post, Sound, Placed;
    match i {
      case Read(bytes) => ReadIsRouted(s, bytes);
      case Callback(e) => CallbackIsRouted(s, e);
      case Stop => StopIsSound(s);
    }
  }

  /** The program was still running when the last thing happened. */
  predicate Alive(chunked: bool, inputs: seq<Input>) {
    |inputs| > 0 ==> !Run(chunked, inputs[..|inputs| - 1]).point.Crashed?
  }

  /** One suspension point: after every run the coroutine has finished, or is suspended in exactly one
      place, the one whose handle is stored, or the program has ended; it was never resumed anywhere else.
      Each callback became the result of exactly one await or exactly one posted event, posted events are
      got in order, and no byte is lost. */
  lemma {:induction false} RunsAreSound(chunked: bool, inputs: seq<Input>)
    ensures var s := Run(chunked, inputs);
            s.chunked == chunked && Sound(s) && Placed(s) && (Alive(chunked, inputs) ==> Accounts(s, inputs))
  {
    hide StepAlive, Sound, Placed, Accounts, Started;
    if |inputs| == 0 {
      StartIsSound(chunked);
      assert inputs == [];
    } else {
      var front := inputs[..|inputs| - 1];
      RunsAreSound(chunked, front);
      if Alive(chunked, inputs) {
        StaysAlive(chunked, front);
        StepIsAccounted(front, Run(chunked, front), inputs[|inputs| - 1], inputs);
      }
    }
  }

  lemma StaysAlive(chunked: bool, inputs: seq<Input>)
    ensures !Run(chunked, inputs).point.Crashed? ==> Alive(chunked, inputs)
  {
    hide StepAlive;
  }

  lemma StartIsSound(chunked: bool)
    ensures var s := Started(chunked); s.chunked == chunked && Sound(s) && Placed(s) && Accounts(s, [])
  {}

  /** Without chunking, what is published is always a prefix of what arrived, and it is all of it
      whenever the coroutine waits on its channel. */
  lemma BytesConserved(inputs: seq<Input>)
    ensures var s := Run(false, inputs);
            && Received(inputs) == s.published + s.recv
            && (s.point.Running? ==> s.recv == "" && s.published == Received(inputs))
  {
    RunsAreSound(false, inputs);
  }

  // ----- What becomes of a registration -----

  /** Where the loop ends up after draining. */
  function Place(d: Calls, stopped: bool, ended: bool): Point {
    if d.thrown then Crashed else if d.stopped || stopped || ended then Finished else Running
  }

  lemma PublishIsCall(s: Server)
    requires s.point.Active? && !s.events.waiting
    ensures var t, d := Publish(s), Decode(s.recv, s.chunkedSize);
            if !s.chunked then t == s.(published := s.published + s.recv, recv := "")
            else
              && t.recv == d.buf && t.chunkedSize == d.size && t.chunked
              && t.point == (if d.end.Throws? then Crashed else Active)
              && t.events == (if d.end.Stops? then s.events.(closed := true) else s.events)
              && t.recorded == (s.recorded && !d.end.Stops?)
  {
    hide Decode;
  }

  lemma QuitIsFinal(s: Server)
    requires s.point.Active? && !s.events.waiting
    ensures var t := Return(StopInside(s)); t.point.Finished? && !t.recorded
  {}

  lemma LoopTurn(s: Server, e: CarrierEvent)
    ensures var t := React(s.(got := s.got + [e]), e);
            Loop(s, Got(e)) == if !t.point.Active? then t else var (c, next) := Next(t.events); Loop(t.(events := c), next)
  {
    hide React, Next;
  }

  /** Where draining the queue takes the running coroutine, and what becomes of its registration. */
  lemma {:induction false} LoopEndsAt(s: Server, q: seq<CarrierEvent>, n: nat)
    requires s.point.Active? && !s.events.waiting && q == s.events.queue && n == ReadsUntil(q, Ends)
    ensures var (c, wake) := Next(s.events);
            var t, d := Loop(s.(events := c), wake), Drained(s.chunked, s.recv, s.chunkedSize, n);
            && t.point == Place(d, s.events.closed, AnyEnds(q, Ends))
            && t.recorded == (s.recorded && !d.stopped && (d.thrown || !AnyEnds(q, Ends)))
    decreases |q|
  {
    hide Decode, Publish, StopInside, Drained;
    if |q| == 0 {
      LoopAtRest(s);
      DrainedNone(s.chunked, s.recv, s.chunkedSize);
    } else {
      var (c, wake) := Next(s.events);
      var u := s.(events := c);
      LoopTurn(u, q[0]);
      var v := u.(got := u.got + [q[0]]);
      if q[0].BevRead? {
        PublishIsCall(v);
        DrainedFirst(s.chunked, s.recv, s.chunkedSize, n);
        if Publish(v).point.Active? {
          LoopEndsAt(Publish(v), q[1..], n - 1);
        }
      } else if Ends(q[0]) {
        QuitIsFinal(v);
        DrainedNone(s.chunked, s.recv, s.chunkedSize);
      } else {
        LoopEndsAt(v, q[1..], n);
      }
    }
  }

  lemma LoopAtRest(s: Server)
    requires s.point.Active? && s.events.queue == []
    ensures var (c, wake) := Next(s.events); var t := Loop(s.(events := c), wake);
            t.point == (if s.events.closed then Finished else Running) && t.recorded == s.recorded
  {}

  /** A positive answer leaves a finished carrier on record exactly if it had been stopped before, but not
      since the core was asked to register it, and draining what was queued meanwhile neither stops it again
      nor ends the program. */
  lemma RegistrationOutcome(s: Server, n: nat)
    requires Sound(s) && Placed(s) && s.point.AwaitRegister? && n == ReadsUntil(s.events.queue, Ends)
    ensures var t, d := RegisterCb(s, CasterOk), Drained(s.chunked, s.recv, s.chunkedSize, n);
            && t.point == Place(d, s.destroys > 0, AnyEnds(s.events.queue, Ends))
            && (LeftOver(t) <==> s.recorded && s.destroys > 0 && !d.stopped && !d.thrown && !AnyEnds(s.events.queue, Ends))
  {
    hide Decode, Drained, Publish;
    var u := s.(pendingRegister := false, point := Active, results := s.results + [RegisterEvent(CasterOk)],
                greetings := s.greetings + 1);
    var (c, wake) := Next(u.events);
    assert RegisterCb(s, CasterOk) == Loop(u.(events := c), wake);
    LoopEndsAt(u, s.events.queue, n);
  }

  /** The core keeps a record of a carrier that has finished. */
  predicate LeftOver(s: Server) {
    s.recorded && s.point.Finished?
  }

  /** Draining the queue neither stops the carrier again nor ends the session or the program. */
  predicate DrainsQuietly(s: Server) {
    var d := Drained(s.chunked, s.recv, s.chunkedSize, ReadsUntil(s.events.queue, Ends));
    !d.stopped && !d.thrown && !AnyEnds(s.events.queue, Ends)
  }

  lemma PostWithdraws(s: Server, e: CarrierEvent)
    requires Suspended(s) && !LeftOver(s)
    ensures !LeftOver(Post(s, e))
  {
    hide Decode, Drained, Publish;
    if s.point.Running? {
      PushWakes(s.events, e);
      var u := s.(events := Chan([e], false, false), point := Active);
      NextOfOne(e);
      LoopEndsAt(u, [e], ReadsUntil([e], Ends));
    }
  }

  const REQUEST := Callback(AuthEvent(AuthOk))
  const SUCCESS := Callback(RegisterEvent(CasterOk))

  /** A step that leaves a finished carrier on record. */
  lemma LeavingStep(s: Server, i: Input)
    requires Sound(s) && Placed(s) && !LeftOver(s) && LeftOver(Step(s, i))
    ensures s.point.AwaitRegister? && s.recorded && s.destroys > 0 && i == SUCCESS && DrainsQuietly(s)
  {
    hide Decode, Drained, Publish;
    match i {
      case Read(bytes) => PostWithdraws(s.(recv := s.recv + bytes, received := s.received + bytes), BevRead);
      case Callback(e) =>
        PostWithdraws(s, e);
        if s.point.AwaitRegister? && e == RegisterEvent(CasterOk) {
          RegistrationOutcome(s, ReadsUntil(s.events.queue, Ends));
        }
      case Stop =>
    }
  }

  // ----- The same over whole runs -----

  predicate NoStop(inputs: seq<Input>, from: nat) {
    forall j | from <= j < |inputs| :: !inputs[j].Stop?
  }

  /** Input `k` makes the coroutine ask the core to register it. */
  predicate Asks(chunked: bool, inputs: seq<Input>, k: nat) {
    k < |inputs| && Run(chunked, inputs[..k]).point.AwaitAuth? && inputs[k] == REQUEST
  }

  /** The carrier was stopped before it asked, and not since. */
  predicate StoppedOnlyBefore(chunked: bool, inputs: seq<Input>, k: nat) {
    Asks(chunked, inputs, k) && (exists j: nat :: j < k && inputs[j].Stop?) && NoStop(inputs, k + 1)
  }

  /** Input `m` is the positive answer, and what has been queued by then is harmless. */
  predicate Succeeds(chunked: bool, inputs: seq<Input>, m: nat) {
    && m < |inputs| && Run(chunked, inputs[..m]).point.AwaitRegister? && inputs[m] == SUCCESS
    && DrainsQuietly(Run(chunked, inputs[..m]))
  }

  lemma ResultsGrow(s: Server, i: Input)
    requires Sound(s) && Placed(s)
    ensures var t := Step(s, i);
            && Sound(t) && Placed(t)
            && (t.results == s.results
                || ((|s.results| == 0 || Authenticated(s.results)) && exists e :: t.results == s.results + [e]))
  {
    hide AuthCb, RegisterCb, ReadCb, StopOutside, Post, Sound, Placed;
    if !s.point.Crashed? {
      match i {
        case Read(bytes) => ReadIsRouted(s, bytes);
        case Callback(e) => CallbackIsRouted(s, e);
        case Stop => StopIsSound(s);
      }
    }
  }

  /** A coroutine that has got beyond its two awaits does not go back to them. */
  lemma NeverBack(s: Server, i: Input)
    requires Sound(s) && Placed(s)
    ensures Step(s, i).point.AwaitAuth? ==> s.point.AwaitAuth?
    ensures Step(s, i).point.AwaitRegister? ==> s.point.AwaitAuth? || s.point.AwaitRegister?
  {
    hide Step, Sound;
    ResultsGrow(s, i);
  }

  /** What stopping it, or anything else but the answer it waits for, makes of a waiting coroutine. */
  lemma StopWhileWaiting(s: Server, i: Input)
    requires Sound(s) && Placed(s) && (s.point.AwaitAuth? || s.point.AwaitRegister?) && Step(s, i).point == s.point
    ensures var t := Step(s, i);
            && t.recorded == (s.recorded && !i.Stop?) && t.destroys == s.destroys + if i.Stop? then 1 else 0
  {
    hide Loop;
    match i {
      case Callback(RegisterEvent(reply)) => RegisterIsRouted(s, reply);
      case _ =>
    }
  }

  lemma AsksNow(s: Server, i: Input)
    requires Sound(s) && s.point.AwaitAuth? && Step(s, i).point.AwaitRegister?
    ensures i == REQUEST && Step(s, i).recorded && Step(s, i).destroys == s.destroys
  {
    hide Loop;
  }

  lemma LastOf(inputs: seq<Input>, front: seq<Input>, i: Input)
    requires |inputs| > 0 && front == inputs[..|inputs| - 1] && i == inputs[|inputs| - 1]
    ensures (exists j: nat :: j < |inputs| && inputs[j].Stop?) <==> i.Stop? || exists j: nat :: j < |front| && front[j].Stop?
  {
    if j: nat :| j < |inputs| && inputs[j].Stop? {
      assert j < |front| ==> front[j].Stop?;
    }
    if j: nat :| j < |front| && front[j].Stop? {
      assert inputs[j].Stop?;
    }
    assert inputs[|front|] == i;
  }

  /** While it waits for the authentication the carrier is on no record, and it knows whether it has been
      stopped. */
  lemma {:induction false} StopsBeforeAsking(chunked: bool, inputs: seq<Input>)
    requires Run(chunked, inputs).point.AwaitAuth?
    ensures var s := Run(chunked, inputs);
            !s.recorded && (s.destroys > 0 <==> exists j: nat :: j < |inputs| && inputs[j].Stop?)
  {
    hide Step, Sound, Placed;
    if |inputs| > 0 {
      var front, i := inputs[..|inputs| - 1], inputs[|inputs| - 1];
      var s := Run(chunked, front);
      RunsAreSound(chunked, front);
      NeverBack(s, i);
      StopsBeforeAsking(chunked, front);
      SoundIsSuspended(s);
      StopWhileWaiting(s, i);
      LastOf(inputs, front, i);
    }
  }

  lemma SoundIsSuspended(s: Server)
    requires Sound(s)
    ensures Suspended(s)
  {}

  lemma AsksLater(chunked: bool, front: seq<Input>, inputs: seq<Input>, k: nat)
    requires front <= inputs && k < |front|
    ensures Asks(chunked, front, k) == Asks(chunked, inputs, k)
  {
    hide Run;
    assert front[..k] == inputs[..k];
  }

  /** While it waits for the registration the carrier has asked for it; it is on record as long as it has not
      been stopped since. */
  lemma {:induction false} WaitingForRegistration(chunked: bool, inputs: seq<Input>) returns (k: nat)
    requires Run(chunked, inputs).point.AwaitRegister?
    ensures Asks(chunked, inputs, k)
    ensures var s := Run(chunked, inputs);
            && (s.recorded <==> NoStop(inputs, k + 1))
            && (s.recorded ==> (s.destroys > 0 <==> exists j: nat :: j < k && inputs[j].Stop?))
  {
    hide Step, Sound, Placed, DrainsQuietly;
    assert |inputs| > 0;
    var front, i := inputs[..|inputs| - 1], inputs[|inputs| - 1];
    var s := Run(chunked, front);
    RunsAreSound(chunked, front);
    NeverBack(s, i);
    SoundIsSuspended(s);
    if s.point.AwaitAuth? {
      k := |front|;
      AsksNow(s, i);
      StopsBeforeAsking(chunked, front);
      BeforeIndex(inputs, front, k);
    } else {
      k := WaitingForRegistration(chunked, front);
      StopWhileWaiting(s, i);
      AsksLater(chunked, front, inputs, k);
      BeforeIndex(inputs, front, k);
      NoStopLast(inputs, front, i, k + 1);
    }
  }

  lemma BeforeIndex(inputs: seq<Input>, front: seq<Input>, k: nat)
    requires front <= inputs && k <= |front|
    ensures (exists j: nat :: j < k && front[j].Stop?) <==> exists j: nat :: j < k && inputs[j].Stop?
  {
    if j: nat :| j < k && front[j].Stop? {
      assert inputs[j].Stop?;
    }
    if j: nat :| j < k && inputs[j].Stop? {
      assert front[j].Stop?;
    }
  }

  lemma NoStopLast(inputs: seq<Input>, front: seq<Input>, i: Input, from: nat)
    requires inputs == front + [i] && from <= |front|
    ensures NoStop(inputs, from) <==> NoStop(front, from) && !i.Stop?
  {
    if NoStop(inputs, from) {
      forall j | from <= j < |front|
        ensures !front[j].Stop?
      {
        assert inputs[j] == front[j];
      }
      assert inputs[|front|] == i;
    }
  }

  /** At most one input asks, and at most one is the answer. */
  lemma {:induction false} AsksOnce(chunked: bool, inputs: seq<Input>, k: nat, n: nat)
    requires Asks(chunked, inputs, k) && k < n <= |inputs|
    ensures !Run(chunked, inputs[..n]).point.AwaitAuth?
    decreases n
  {
    hide Sound, Placed;
    RunsAreSound(chunked, inputs[..n - 1]);
    assert inputs[..n][..n - 1] == inputs[..n - 1];
    if n - 1 > k {
      AsksOnce(chunked, inputs, k, n - 1);
      NeverBack(Run(chunked, inputs[..n - 1]), inputs[n - 1]);
    } else {
      assert Run(chunked, inputs[..n]) == Step(Run(chunked, inputs[..k]), REQUEST);
      Requested(Run(chunked, inputs[..k]));
    }
  }

  lemma Requested(s: Server)
    requires Sound(s) && s.point.AwaitAuth?
    ensures Step(s, REQUEST).point.AwaitRegister?
  {}

  /** A finished carrier stays finished, and stays on record until it is stopped again. */
  lemma StaysLeft(s: Server, i: Input)
    requires Sound(s) && s.point.Finished?
    ensures Step(s, i).point.Finished? && Step(s, i).recorded == (s.recorded && !i.Stop?)
  {
    hide Loop;
  }

  /** A carrier finishes and stays on record exactly if it was stopped before it asked the core to register
      it and not since, the answer was positive, and nothing that was queued by then stopped it or ended the
      session. */
  ghost predicate Leaks(chunked: bool, inputs: seq<Input>) {
    exists k: nat, m: nat :: StoppedOnlyBefore(chunked, inputs, k) && Succeeds(chunked, inputs, m)
  }

  lemma {:induction false} LeaksIfLeft(chunked: bool, inputs: seq<Input>)
    requires LeftOver(Run(chunked, inputs))
    ensures Leaks(chunked, inputs)
  {
    hide Step, Sound, Placed, DrainsQuietly;
    assert |inputs| > 0;
    var front, i := inputs[..|inputs| - 1], inputs[|inputs| - 1];
    var s := Run(chunked, front);
    RunsAreSound(chunked, front);
    if LeftOver(s) {
      LeaksIfLeft(chunked, front);
      StaysLeft(s, i);
      var k: nat, m: nat :| StoppedOnlyBefore(chunked, front, k) && Succeeds(chunked, front, m);
      LeakGoesOn(chunked, front, inputs, i, k, m);
    } else {
      LeavingStep(s, i);
      var k := WaitingForRegistration(chunked, front);
      LeakBegins(chunked, front, inputs, i, k);
    }
  }

  lemma LeakBegins(chunked: bool, front: seq<Input>, inputs: seq<Input>, i: Input, k: nat)
    requires inputs == front + [i] && i == SUCCESS && StoppedOnlyBefore(chunked, front, k)
    requires Run(chunked, front).point.AwaitRegister? && DrainsQuietly(Run(chunked, front))
    ensures Leaks(chunked, inputs)
  {
    hide Run, DrainsQuietly;
    AsksLater(chunked, front, inputs, k);
    BeforeIndex(inputs, front, k);
    NoStopLast(inputs, front, i, k + 1);
    assert inputs[..|front|] == front;
    assert StoppedOnlyBefore(chunked, inputs, k) && Succeeds(chunked, inputs, |front|);
  }

  lemma LeakGoesOn(chunked: bool, front: seq<Input>, inputs: seq<Input>, i: Input, k: nat, m: nat)
    requires inputs == front + [i] && k < |front| && m < |front|
    ensures StoppedOnlyBefore(chunked, inputs, k) <==> StoppedOnlyBefore(chunked, front, k) && !i.Stop?
    ensures Succeeds(chunked, inputs, m) <==> Succeeds(chunked, front, m)
  {
    hide Run, DrainsQuietly;
    AsksLater(chunked, front, inputs, k);
    BeforeIndex(inputs, front, k);
    NoStopLast(inputs, front, i, k + 1);
    assert front[..m] == inputs[..m];
  }

  lemma {:induction false} LeftIfLeaks(chunked: bool, inputs: seq<Input>, k: nat, m: nat)
    requires StoppedOnlyBefore(chunked, inputs, k) && Succeeds(chunked, inputs, m)
    ensures LeftOver(Run(chunked, inputs))
    decreases |inputs|
  {
    hide Step, Sound, Placed, DrainsQuietly;
    var front, i := inputs[..|inputs| - 1], inputs[|inputs| - 1];
    var s := Run(chunked, front);
    RunsAreSound(chunked, front);
    assert inputs == front + [i];
    AskedBefore(chunked, inputs, k, m);
    if m < |front| {
      LeakGoesOn(chunked, front, inputs, i, k, m);
      LeftIfLeaks(chunked, front, k, m);
      assert i == inputs[|front|];
      StaysLeft(s, i);
    } else {
      var l := WaitingForRegistration(chunked, front);
      AsksLater(chunked, front, inputs, l);
      AsksLater(chunked, front, inputs, k);
      SameAsking(chunked, inputs, k, l);
      BeforeIndex(inputs, front, k);
      NoStopLast(inputs, front, i, k + 1);
      SuccessLeaves(s);
    }
  }

  lemma AskedBefore(chunked: bool, inputs: seq<Input>, k: nat, m: nat)
    requires Asks(chunked, inputs, k) && Succeeds(chunked, inputs, m)
    ensures k < m
  {
    hide Step, DrainsQuietly;
    var l := WaitingForRegistration(chunked, inputs[..m]);
    AsksLater(chunked, inputs[..m], inputs, l);
    SameAsking(chunked, inputs, k, l);
  }

  lemma SameAsking(chunked: bool, inputs: seq<Input>, k: nat, l: nat)
    requires Asks(chunked, inputs, k) && Asks(chunked, inputs, l)
    ensures k == l
  {
    hide Run;
    if k < l {
      AsksOnce(chunked, inputs, k, l);
    } else if l < k {
      AsksOnce(chunked, inputs, l, k);
    }
  }

  lemma SuccessLeaves(s: Server)
    requires Sound(s) && Placed(s) && s.point.AwaitRegister? && DrainsQuietly(s)
    ensures LeftOver(Step(s, SUCCESS)) <==> s.recorded && s.destroys > 0
  {
    hide Drained, RegisterCb, Sound, Placed;
    RegistrationOutcome(s, ReadsUntil(s.events.queue, Ends));
  }

  /** Over every run: a carrier finishes and stays on record exactly if it was stopped before it asked the core
      to register it and not since, the answer was positive, and nothing that was queued by then stopped it
      or ended the session or the program. */
  lemma LeftOverExactly(chunked: bool, inputs: seq<Input>)
    ensures LeftOver(Run(chunked, inputs)) <==> Leaks(chunked, inputs)
  {
    hide Run, StoppedOnlyBefore, Succeeds;
    if LeftOver(Run(chunked, inputs)) {
      LeaksIfLeft(chunked, inputs);
    }
    forall k: nat, m: nat | StoppedOnlyBefore(chunked, inputs, k) && Succeeds(chunked, inputs, m)
      ensures LeftOver(Run(chunked, inputs))
    {
      LeftIfLeaks(chunked, inputs, k, m);
    }
  }

  /** Stopped before it asks, the carrier stays on record; stopped while it waits for the answer, it does not. */
  lemma EarlyStopLeaks(chunked: bool)
    ensures LeftOver(Run(chunked, [Stop, REQUEST, SUCCESS])) && !LeftOver(Run(chunked, [REQUEST, Stop, SUCCESS]))
  {
    hide Decode;
    ThreeSteps(chunked, Stop, REQUEST, SUCCESS);
    ThreeSteps(chunked, REQUEST, Stop, SUCCESS);
    var closed := Empty<CarrierEvent>().(closed := true);
    var s := Started(chunked).(events := closed, destroys := 1);
    var t := s.(point := AwaitRegister, pendingAuth := false, pendingRegister := true, results := [AuthEvent(AuthOk)]);
    assert Step(Started(chunked), Stop) == s;
    assert Step(s, REQUEST) == t.(recorded := true);
    assert Step(Step(Started(chunked), REQUEST), Stop) == t;
    forall recorded
      ensures Step(t.(recorded := recorded), SUCCESS).point.Finished? && Step(t.(recorded := recorded), SUCCESS).recorded == recorded
    {
      var u := t.(recorded := recorded, point := Active, pendingRegister := false,
                  results := [AuthEvent(AuthOk), RegisterEvent(CasterOk)], greetings := 1);
      assert Next(closed) == (closed, End);
      assert Step(t.(recorded := recorded), SUCCESS) == Loop(u, End);
    }
    assert t.(recorded := false) == t;
  }

  lemma ThreeSteps(chunked: bool, i: Input, j: Input, k: Input)
    ensures Run(chunked, [i, j, k]) == Step(Step(Step(Started(chunked), i), j), k)
  {
    hide Step, Started;
    assert [i, j, k][..2] == [i, j] && [i, j][..1] == [i] && [i][..0] == [];
    assert After(Started(chunked), [i]) == Step(Started(chunked), i);
    assert After(Started(chunked), [i, j]) == Step(Step(Started(chunked), i), j);
  }
}
