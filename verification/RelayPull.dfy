/** The coroutine of a relay that pulls a stream from another caster and reconnects for ever: where it is
    suspended, which connection it owns, and how long it sleeps. */
module RelayPull {
  import opened Carrier
  import opened Channel
  import opened ChunkCodec
  import opened Handshake
  import opened Options
  import opened Sequences
  import ConnectBev

  /** Where the coroutine is. It runs while `Active`; `Crashed` is the end of the program by an exception
      that the coroutine does not catch; `Misled` is a resumption of a coroutine that is not suspended at
      that place. */
  datatype Point =
    | Connecting | Handshaking | Registering | Asleep | Running | Finished | Crashed
    | Active | Misled

  /** The callbacks that answered an await, and those that were posted. */
  datatype Log = Log(results: seq<CarrierEvent>, posted: seq<CarrierEvent>)

  /** The fields of the relay and the table of connections. `armed` says that the callbacks of its
      connection are set, `asked` holds the keys under which the core has been asked to register it and has
      not been asked to withdraw that since, `sleeps` the sleeps since it last reached the running state,
      and `dialled` every connection it dialled. */
  datatype Relay = Relay(
    point: Point, stopped: bool, retryDelay: nat, connectKey: string, bev: Option<ConnectBev.Bev>,
    conns: ConnectBev.Conns, armed: bool, pendingEvent: bool, pendingRead: bool, pendingRegister: bool,
    timers: nat, events: Chan<CarrierEvent>, recv: string, chunked: bool, chunkedSize: SizeT,
    asked: set<string>, published: string, sleeps: seq<nat>, dialled: set<ConnectBev.Bev>,
    log: Log)

  // ----- The coroutine, from one suspension to the next -----

  const FIRST_DELAY := 5
  const LAST_DELAY := 60

  function Backoff(delay: nat): nat {
    if delay * 2 < LAST_DELAY then delay * 2 else LAST_DELAY
  }

  function StartBev(s: Relay): Relay {
    s.(armed := true, conns := ConnectBev.SetTimer(s.conns, s.connectKey, 0, 0))
  }

  function StopBev(s: Relay): Relay {
    s.(armed := false, conns := ConnectBev.DelTimer(s.conns, s.connectKey))
  }

  function Destroy(s: Relay): Relay {
    s.(armed := false, bev := None, conns := ConnectBev.DelBev(s.conns, s.connectKey))
  }

  function Sleep(s: Relay): Relay {
    s.(point := Asleep, timers := s.timers + 1, sleeps := s.sleeps + [s.retryDelay])
  }

  function Finish(s: Relay): Relay {
    Destroy(s).(point := Finished)
  }

  function BevsOf(dial: ConnectBev.Dial): set<ConnectBev.Bev> {
    if dial.Unresolved? then {} else {dial.bev}
  }

  /** The top of the reconnect loop. */
  function Top(s: Relay, dial: ConnectBev.Dial): Relay {
    if s.stopped then Finish(s)
    else
      var (c, key) := ConnectBev.NewDialled(s.conns, dial);
      var t := s.(conns := c, connectKey := key, dialled := s.dialled + BevsOf(dial));
      if key == "" then Sleep(t)
      else StartBev(t.(bev := ConnectBev.GetBev(c, key), point := Connecting, pendingEvent := true))
  }

  /** `named` is the key computed from the connected socket. */
  function AfterConnect(s: Relay, connected: bool, named: string): Relay {
    if !connected then Sleep(Destroy(s))
    else
      var (c, key) := ConnectBev.RecalculateKey(s.conns, s.connectKey, named);
      s.(conns := c, connectKey := key, bev := if key != s.connectKey then ConnectBev.GetBev(c, key) else s.bev,
         point := Handshaking, pendingRead := true)
  }

  function AfterHandshake(s: Relay, resp: string): Relay {
    if resp == "" then Sleep(Destroy(s))
    else
      match VerifyResponse(resp)
      case Refused => Sleep(Destroy(s))
      case Accepted(_, chunked) =>
        s.(chunked := chunked, point := Registering, pendingRegister := true, asked := s.asked + {s.connectKey})
  }

  function Withdraw(s: Relay): Relay {
    s.(asked := s.asked - {s.connectKey})
  }

  /** `stop()` up to closing the channel. */
  function Stopping(s: Relay): Relay {
    Withdraw(StopBev(s)).(stopped := true)
  }

  /** `stop()` called by the coroutine itself. */
  function StopInside(s: Relay): Relay {
    var (c, wake) := Close(s.events);
    Stopping(s).(events := c, point := if wake.NoWake? then s.point else Misled)
  }

  function Publish(s: Relay): (t: Relay)
    ensures |t.events.queue| <= |s.events.queue| && t.log == s.log && t.connectKey == s.connectKey && t.chunked == s.chunked
  {
    if !s.chunked then s.(published := s.published + s.recv, recv := "")
    else
      var d := Decode(s.recv, s.chunkedSize);
      var t := s.(recv := d.buf, chunkedSize := d.size, published := s.published + d.out);
      match d.end
      case Waits => t
      case Stops => StopInside(t)
      case Throws => t.(point := Crashed)
  }

  predicate Disconnects(e: CarrierEvent) {
    e == RegisterEvent(CasterErr) || e.BevEvent?
  }

  /** Behind the event loop: a stopped relay finishes, any other prepares to reconnect. */
  function Leave(s: Relay): (t: Relay)
    ensures |t.events.queue| <= |s.events.queue| && t.log == s.log && t.connectKey == s.connectKey && t.chunked == s.chunked
  {
    if s.stopped then Finish(s)
    else Sleep(Destroy(Withdraw(StopBev(s))).(events := Empty()))
  }

  function React(s: Relay, e: CarrierEvent): (t: Relay)
    ensures |t.events.queue| <= |s.events.queue| && t.log == s.log && t.connectKey == s.connectKey && t.chunked == s.chunked
  {
    if Disconnects(e) then Leave(s)
    else if e.BevRead? then Publish(s)
    else s
  }

  /** The event loop, given what `next()` returns. */
  function Loop(s: Relay, wake: Wake<CarrierEvent>): (t: Relay)
    ensures t.log == s.log && t.connectKey == s.connectKey && t.chunked == s.chunked
    decreases |s.events.queue|, if wake.Got? then 1 else 0
  {
    match wake
    case NoWake => s.(point := Running)
    case End => Leave(s)
    case Got(e) =>
      var t := React(s, e);
      if !t.point.Active? then t
      else
        var (c, next) := Next(t.events);
        Loop(t.(events := c), next)
  }

  function AfterRegister(s: Relay, reply: CasterReply): Relay {
    if reply != CasterOk then Sleep(Destroy(s))
    else
      var t := StartBev(s.(retryDelay := FIRST_DELAY, sleeps := []));
      var (c, wake) := Next(t.events);
      Loop(t.(events := c), wake)
  }

  // ----- The callbacks -----

  function Woken(s: Relay, wake: Wake<CarrierEvent>): Relay {
    if wake.NoWake? then s
    else if s.point.Running? then Loop(s.(point := Active), wake)
    else s.(point := Misled)
  }

  function Post(s: Relay, e: CarrierEvent): Relay {
    var (c, wake) := Push(s.events, e);
    Woken(s.(events := c, log := Log(s.log.results, s.log.posted + [e])), wake)
  }

  /** A one-shot callback resumes the coroutine at `at`. */
  function Resumed(s: Relay, at: Point, e: CarrierEvent): Relay {
    s.(point := if s.point == at then Active else Misled, log := Log(s.log.results + [e], s.log.posted))
  }

  function EventCb(s: Relay, connected: bool, named: string): Relay {
    if !s.pendingEvent then Post(s, BevEvent(connected))
    else
      var t := Resumed(s.(pendingEvent := false), Connecting, BevEvent(connected));
      if t.point.Active? then AfterConnect(t, connected, named) else t
  }

  /** Reading for the handshake takes the whole buffer, whatever the transfer coding. */
  function ReadCb(s: Relay, bytes: string): Relay {
    var r := s.(recv := s.recv + bytes);
    if !s.pendingRead then Post(r, BevRead)
    else
      var t := Resumed(r.(pendingRead := false, recv := ""), Handshaking, BevRead);
      if t.point.Active? then AfterHandshake(t, r.recv) else t
  }

  function RegisterCb(s: Relay, reply: CasterReply): Relay {
    if !s.pendingRegister then Post(s, RegisterEvent(reply))
    else
      var t := Resumed(s.(pendingRegister := false), Registering, RegisterEvent(reply));
      if t.point.Active? then AfterRegister(t, reply) else t
  }

  function TimerCb(s: Relay, dial: ConnectBev.Dial): Relay {
    if s.timers == 0 then s
    else if s.point.Asleep? then
      Top(s.(timers := s.timers - 1, point := Active, retryDelay := Backoff(s.retryDelay)), dial)
    else s.(timers := s.timers - 1, point := Misled)
  }

  function StopOutside(s: Relay): Relay {
    var (c, wake) := Close(s.events);
    Woken(Stopping(s).(events := c), wake)
  }

  /** What can happen: the timer fires and the next connection attempt has this outcome, the connection
      reports an event, data arrives, the core answers a registration, the relay is stopped, or another
      user of the table of connections changes it. A connection without callbacks reports nothing. */
  datatype Input =
    | Fires(dial: ConnectBev.Dial)
    | Event(connected: bool, named: string)
    | Read(bytes: string)
    | Reply(reply: CasterReply)
    | Stop
    | Neighbour(op: ConnectBev.Op)

  /** Nothing happens to a relay any more once the program has ended. */
  function Step(s: Relay, i: Input): Relay {
    if s.point.Crashed? then s else StepAlive(s, i)
  }

  function StepAlive(s: Relay, i: Input): Relay {
    match i
    case Fires(dial) => TimerCb(s, dial)
    case Event(connected, named) => if s.armed then EventCb(s, connected, named) else s
    case Read(bytes) => if s.armed then ReadCb(s, bytes) else s
    case Reply(reply) => RegisterCb(s, reply)
    case Stop => StopOutside(s)
    case Neighbour(op) => s.(conns := ConnectBev.Apply(s.conns, op))
  }

  function Created(conns: ConnectBev.Conns): Relay {
    Relay(Active, false, FIRST_DELAY, "", None, conns, false, false, false, false, 0, Empty(), "", false, 0,
          {}, "", [], {}, Log([], []))
  }

  function After(s: Relay, inputs: seq<Input>): Relay {
    if |inputs| == 0 then s
    else Step(After(s, inputs[..|inputs| - 1]), inputs[|inputs| - 1])
  }

  /** A run: the relay starts beside other connections, and things happen. */
  function Run(others: ConnectBev.Conns, dial: ConnectBev.Dial, inputs: seq<Input>): Relay {
    After(Top(Created(others), dial), inputs)
  }

  /** New connections are new: a bufferevent that was just allocated, and a key that is not in use. */
  predicate FreshDial(c: ConnectBev.Conns, dial: ConnectBev.Dial) {
    match dial
    case Unresolved => true
    case Failed(bev) => bev !in c.handed
    case Dialled(key, bev) => bev !in c.handed && key != "" && key !in c.table
  }

  /** The key of the relay's connection, if it has one. */
  function Own(s: Relay): set<string> {
    OwnKey(s.connectKey, s.bev)
  }

  function OwnKey(key: string, bev: Option<ConnectBev.Bev>): set<string> {
    if bev.Some? then {key} else {}
  }

  /** Other users of the table allocate new bufferevents too, and keep off the key of the relay's
      connection, as long as it has one. */
  predicate FreshInput(s: Relay, i: Input) {
    match i
    case Fires(dial) => FreshDial(s.conns, dial)
    case Event(_, named) => named == "" || named == s.connectKey || named !in s.conns.table
    case Neighbour(op) => ConnectBev.Fresh(s.conns, op) && Own(s) !! ConnectBev.KeysOf(op) && "" !in ConnectBev.KeysOf(op)
    case _ => true
  }

  predicate FreshInputs(s: Relay, inputs: seq<Input>) {
    |inputs| > 0 ==>
      var front := inputs[..|inputs| - 1];
      FreshInputs(s, front) && FreshInput(After(s, front), inputs[|inputs| - 1])
  }

  // ----- What every run keeps -----

  /** The k-th sleep in a row, counted from 0. */
  function Delay(k: nat): nat {
    if k == 0 then FIRST_DELAY else Backoff(Delay(k - 1))
  }

  predicate Slept(sleeps: seq<nat>) {
    forall k | 0 <= k < |sleeps| :: sleeps[k] == Delay(k)
  }

  predicate Connected(p: Point) {
    p.Connecting? || p.Handshaking? || p.Registering? || p.Running?
  }

  /** The relay owns at most one connection, which is stored under its key, and has freed every other one
      it ever dialled. */
  ghost predicate Owns(key: string, bev: Option<ConnectBev.Bev>, dialled: set<ConnectBev.Bev>, c: ConnectBev.Conns) {
    && (match bev
        case None => true
        case Some(b) => key != "" && key in c.table && c.table[key] == b && b in dialled)
    && (forall o | o in dialled :: o in c.freed || bev == Some(o))
    && dialled <= c.handed && "" !in c.table
    && ConnectBev.Safe(c) && ConnectBev.Conserved(c)
  }

  /** No entry but the relay's own has changed, before or after, and no timers of any other key. */
  ghost predicate Untouched(own: set<string>, c: ConnectBev.Conns, own': set<string>, c': ConnectBev.Conns) {
    && (forall k | k in c.table && k !in own :: k in c'.table && c'.table[k] == c.table[k])
    && (forall k | k in c'.table && k !in own + own' :: k in c.table)
    && SameTimers(own + own', c, c')
  }

  ghost predicate SameTimers(but: set<string>, c: ConnectBev.Conns, c': ConnectBev.Conns) {
    && (forall k | k in c.readTimers && k !in but :: k in c'.readTimers && c'.readTimers[k] == c.readTimers[k])
    && (forall k | k in c.writeTimers && k !in but :: k in c'.writeTimers && c'.writeTimers[k] == c.writeTimers[k])
    && (forall k | k in c'.readTimers && k !in but :: k in c.readTimers)
    && (forall k | k in c'.writeTimers && k !in but :: k in c.writeTimers)
  }

  /** While the coroutine is suspended, exactly the handle of the place where it waits is stored. */
  predicate Suspended(s: Relay) {
    && ChanOk(s.events)
    && !s.point.Active? && !s.point.Misled?
    && (s.pendingEvent <==> s.point.Connecting?)
    && (s.pendingRead <==> s.point.Handshaking?)
    && (s.pendingRegister <==> s.point.Registering?)
    && s.timers == (if s.point.Asleep? then 1 else 0)
    && (s.events.waiting <==> s.point.Running?)
    && (s.events.closed <==> s.stopped) && (s.point.Crashed? ==> s.chunked)
  }

  /** What the place says about the connection, the registration and the pace. */
  predicate Settled(s: Relay) {
    && (s.bev.Some? <==> Connected(s.point) || s.point.Crashed?)
    && (s.point.Running? ==> !s.stopped && s.armed && s.sleeps == [])
    && (s.point.Finished? ==> s.stopped) && Recorded(s)
    && (s.armed ==> s.bev.Some?)
    && (s.stopped && (s.point.Connecting? || s.point.Handshaking?) ==> !s.armed)
    && Slept(s.sleeps)
    && (if s.point.Asleep? then |s.sleeps| > 0 && s.retryDelay == Delay(|s.sleeps| - 1)
        else s.point.Finished? || s.retryDelay == Delay(|s.sleeps|))
  }

  /** The core has the relay under its key from the moment it asks for it, unless the relay has been stopped. */
  predicate Recorded(s: Relay) {
    && (s.stopped ==> s.connectKey !in s.asked)
    && (s.point.Registering? || s.point.Running? || s.point.Crashed? ==> s.stopped || s.connectKey in s.asked)
  }

  ghost predicate Sound(s: Relay) {
    Suspended(s) && Settled(s) && Owns(s.connectKey, s.bev, s.dialled, s.conns)
  }

  /** While the coroutine runs, no handle is stored. */
  ghost predicate Executing(s: Relay) {
    && s.point.Active? && !s.pendingEvent && !s.pendingRead && !s.pendingRegister && s.timers == 0
    && !s.events.waiting && (s.events.closed <==> s.stopped) && (s.stopped ==> s.connectKey !in s.asked)
    && Slept(s.sleeps) && s.retryDelay == Delay(|s.sleeps|) && (s.armed ==> s.bev.Some?)
    && Owns(s.connectKey, s.bev, s.dialled, s.conns)
  }

  // ----- The table of connections -----

  ghost predicate KeptApart(s: Relay, t: Relay) {
    Untouched(Own(s), s.conns, Own(t), t.conns)
  }

  lemma TimersAside(key: string, bev: Option<ConnectBev.Bev>, dialled: set<ConnectBev.Bev>, c: ConnectBev.Conns)
    requires Owns(key, bev, dialled, c)
    ensures var d := ConnectBev.SetTimer(c, key, 0, 0);
            Owns(key, bev, dialled, d) && (bev.Some? ==> Untouched({key}, c, {key}, d))
    ensures var d := ConnectBev.DelTimer(c, key);
            Owns(key, bev, dialled, d) && (bev.Some? ==> Untouched({key}, c, {key}, d))
  {}

  lemma DestroyedOwnsNothing(key: string, bev: Option<ConnectBev.Bev>, dialled: set<ConnectBev.Bev>, c: ConnectBev.Conns)
    requires Owns(key, bev, dialled, c)
    ensures Owns(key, None, dialled, ConnectBev.DelBev(c, key))
  {
    ConnectBev.DelKeepsSafe(c, key);
  }

  lemma DestroyedIsApart(key: string, c: ConnectBev.Conns)
    ensures Untouched({key}, c, {}, ConnectBev.DelBev(c, key))
    ensures Untouched({}, c, {}, ConnectBev.DelBev(c, key)) <==> key !in c.table
  {
    var d := ConnectBev.DelBev(c, key);
    if key in c.table {
      assert key !in d.table;
    }
  }

  lemma DialledIsOwned(key: string, dialled: set<ConnectBev.Bev>, c: ConnectBev.Conns, dial: ConnectBev.Dial)
    requires Owns(key, None, dialled, c) && FreshDial(c, dial)
    ensures var (d, newKey) := ConnectBev.NewDialled(c, dial);
            var bev := if newKey == "" then None else ConnectBev.GetBev(d, newKey);
            && (newKey == "" <==> !dial.Dialled?) && (newKey != "" ==> bev.Some?)
            && Owns(newKey, bev, dialled + BevsOf(dial), d)
  {
    ConnectBev.StepKeepsSafe(c, ConnectBev.Open(dial));
  }

  lemma DialledIsApart(c: ConnectBev.Conns, dial: ConnectBev.Dial)
    requires FreshDial(c, dial)
    ensures var (d, newKey) := ConnectBev.NewDialled(c, dial);
            Untouched({}, c, if newKey == "" then {} else {newKey}, d)
  {}

  lemma RenamedIsOwned(key: string, b: ConnectBev.Bev, dialled: set<ConnectBev.Bev>, c: ConnectBev.Conns, named: string)
    requires Owns(key, Some(b), dialled, c)
    requires named == "" || named == key || named !in c.table
    ensures var (d, newKey) := ConnectBev.RecalculateKey(c, key, named);
            && Owns(newKey, Some(b), dialled, d) && (newKey != key ==> ConnectBev.GetBev(d, newKey) == Some(b))
            && Untouched({key}, c, {newKey}, d)
  {
    if named != "" && named != key {
      ConnectBev.RenameKeepsSafe(c, key, named);
    }
  }

  /** What other users do to the table with other keys does not change what the relay owns. */
  lemma NeighbourKeepsOwned(key: string, bev: Option<ConnectBev.Bev>, dialled: set<ConnectBev.Bev>, c: ConnectBev.Conns,
                            op: ConnectBev.Op)
    requires Owns(key, bev, dialled, c) && ConnectBev.Fresh(c, op) && OwnKey(key, bev) !! ConnectBev.KeysOf(op) && "" !in ConnectBev.KeysOf(op)
    ensures Owns(key, bev, dialled, ConnectBev.Apply(c, op))
  {
    ConnectBev.StepKeepsSafe(c, op);
    if bev.Some? {
      ConnectBev.OtherEntriesStay(c, op, key);
    }
    ConnectBev.OtherEntriesStay(c, op, "");
    ConnectBev.FreedStaysFreed(c, op);
  }

  // ----- Each stretch of the coroutine -----

  lemma SameTableApart(s: Relay, t: Relay)
    requires t.conns == s.conns
    ensures KeptApart(s, t)
  {}

  lemma ApartThen(s: Relay, t: Relay, u: Relay)
    requires KeptApart(s, t) && KeptApart(t, u) && Own(t) == Own(s)
    ensures KeptApart(s, u)
  {}

  lemma SleepIsSound(s: Relay)
    requires Executing(s) && s.bev.None?
    ensures Sound(Sleep(s)) && KeptApart(s, Sleep(s))
  {
    hide Owns, Untouched;
    SameTableApart(s, Sleep(s));
  }

  lemma RetryIsSound(s: Relay)
    requires Executing(s) && s.bev.Some?
    ensures Sound(Sleep(Destroy(s))) && KeptApart(s, Sleep(Destroy(s)))
  {
    hide Owns, Untouched;
    DestroyedOwnsNothing(s.connectKey, s.bev, s.dialled, s.conns);
    DestroyedIsApart(s.connectKey, s.conns);
    SleepIsSound(Destroy(s));
  }

  /** Finishing without a connection changes another user's entry exactly if that has the relay's last key. */
  lemma FinishIsSound(s: Relay)
    requires Executing(s) && s.stopped
    ensures Sound(Finish(s)) && (KeptApart(s, Finish(s)) <==> s.bev.Some? || s.connectKey !in s.conns.table)
  {
    hide Owns, Untouched;
    DestroyedOwnsNothing(s.connectKey, s.bev, s.dialled, s.conns);
    DestroyedIsApart(s.connectKey, s.conns);
  }

  lemma LeaveIsSound(s: Relay)
    requires Executing(s) && s.bev.Some? && (s.stopped || s.sleeps == [])
    ensures Sound(Leave(s)) && KeptApart(s, Leave(s))
  {
    hide Owns, Untouched;
    if s.stopped {
      FinishIsSound(s);
    } else {
      TimersAside(s.connectKey, s.bev, s.dialled, s.conns);
      var t := Withdraw(StopBev(s)).(events := Empty());
      RetryIsSound(t);
      assert Leave(s) == Sleep(Destroy(t));
      ApartThen(s, t, Leave(s));
    }
  }

  /** The coroutine runs its event loop. */
  ghost predicate InSession(s: Relay) {
    Executing(s) && s.bev.Some? && (s.stopped || (s.armed && s.sleeps == [] && s.connectKey in s.asked))
  }

  lemma StopInsideKeeps(s: Relay)
    requires InSession(s)
    ensures var t := StopInside(s);
            InSession(t) && t.events.queue == s.events.queue && t.stopped && Own(t) == Own(s) && KeptApart(s, t)
  {
    hide Owns, Untouched;
    TimersAside(s.connectKey, s.bev, s.dialled, s.conns);
  }

  lemma PublishKeeps(s: Relay)
    requires InSession(s)
    ensures var t := Publish(s);
            && (InSession(t) || (t.point.Crashed? && Sound(t)))
            && t.events.queue == s.events.queue && Own(t) == Own(s) && KeptApart(s, t)
  {
    hide Owns, Untouched, Decode, StopInside;
    if s.chunked {
      var d := Decode(s.recv, s.chunkedSize);
      var t := s.(recv := d.buf, chunkedSize := d.size, published := s.published + d.out);
      assert InSession(t);
      SameTableApart(s, t);
      SameTableApart(s, t.(point := Crashed));
      if d.end.Stops? {
        StopInsideKeeps(t);
        ApartThen(s, t, StopInside(t));
      }
    } else {
      SameTableApart(s, Publish(s));
    }
  }

  /** What `next()` has returned to the running coroutine. */
  ghost predicate Returned(s: Relay, wake: Wake<CarrierEvent>) {
    && InSession(s.(events := s.events.(waiting := false)))
    && (s.events.waiting <==> wake.NoWake?) && ChanOk(s.events) && (wake.End? ==> s.events.closed)
  }

  lemma NextReturns(s: Relay)
    requires InSession(s)
    ensures var (c, wake) := Next(s.events);
            && Returned(s.(events := c), wake)
            && |c.queue| + (if wake.Got? then 1 else 0) == |s.events.queue|
  {
    hide Owns;
  }

  lemma ReturnedLeaves(s: Relay, wake: Wake<CarrierEvent>)
    requires Returned(s, wake) && !wake.NoWake?
    ensures InSession(s) && Sound(Leave(s)) && KeptApart(s, Leave(s))
  {
    hide Owns, Untouched, Leave;
    assert s.events.(waiting := false) == s.events;
    assert s.(events := s.events) == s;
    LeaveIsSound(s);
  }

  lemma ReturnedWaits(s: Relay)
    requires Returned(s, NoWake)
    ensures Sound(s.(point := Running))
  {
    hide Owns;
  }

  lemma ReactKeeps(s: Relay, e: CarrierEvent)
    requires Returned(s, Got(e))
    ensures var t := React(s, e);
            && (if Disconnects(e) then Sound(t) && !t.point.Active?
                else Own(t) == Own(s) && (InSession(t) || (t.point.Crashed? && Sound(t))))
            && KeptApart(s, t)
  {
    hide Owns, Untouched, Publish, Leave;
    ReturnedLeaves(s, Got(e));
    PublishKeeps(s);
    SameTableApart(s, s);
  }

  lemma {:induction false} LoopIsSound(s: Relay, wake: Wake<CarrierEvent>)
    requires Returned(s, wake)
    ensures Sound(Loop(s, wake)) && KeptApart(s, Loop(s, wake))
    decreases |s.events.queue|, if wake.Got? then 1 else 0
  {
    hide Owns, React, Untouched, Leave;
    match wake {
      case NoWake =>
        ReturnedWaits(s);
        SameTableApart(s, s.(point := Running));
      case End => ReturnedLeaves(s, wake);
      case Got(e) =>
        var t := React(s, e);
        ReactKeeps(s, e);
        if t.point.Active? {
          NextReturns(t);
          var (c, next) := Next(t.events);
          LoopIsSound(t.(events := c), next);
          ApartThen(s, t, Loop(t.(events := c), next));
        }
    }
  }

  lemma DialsSoundly(s: Relay, dial: ConnectBev.Dial)
    requires Executing(s) && s.bev.None? && !s.stopped && FreshDial(s.conns, dial)
    ensures var t := Top(s, dial); Sound(t) && KeptApart(s, t) && t.log == s.log
  {
    hide Owns, Untouched, ConnectBev.NewDialled, ConnectBev.SetTimer, ConnectBev.GetBev;
    DialledIsOwned(s.connectKey, s.dialled, s.conns, dial);
    DialledIsApart(s.conns, dial);
    var (c, key) := ConnectBev.NewDialled(s.conns, dial);
    if key != "" {
      var bev := ConnectBev.GetBev(c, key);
      TimersAside(key, bev, s.dialled + BevsOf(dial), c);
      StartedIsApart(s.conns, key, c, ConnectBev.SetTimer(c, key, 0, 0));
    }
  }

  lemma StartedIsApart(c: ConnectBev.Conns, key: string, d: ConnectBev.Conns, e: ConnectBev.Conns)
    requires Untouched({}, c, {key}, d) && Untouched({key}, d, {key}, e) && e.table == d.table
    ensures Untouched({}, c, {key}, e)
  {}

  lemma TopIsSound(s: Relay, dial: ConnectBev.Dial)
    requires Executing(s) && s.bev.None? && FreshDial(s.conns, dial)
    ensures var t := Top(s, dial);
            Sound(t) && (KeptApart(s, t) <==> !s.stopped || s.connectKey !in s.conns.table) && t.log == s.log
  {
    hide Owns, Untouched, Executing, Sound;
    if s.stopped {
      FinishIsSound(s);
    } else {
      DialsSoundly(s, dial);
    }
  }

  lemma ConnectIsSound(s: Relay, connected: bool, named: string)
    requires Executing(s) && s.bev.Some? && !s.stopped
    requires named == "" || named == s.connectKey || named !in s.conns.table
    ensures var t := AfterConnect(s, connected, named); Sound(t) && KeptApart(s, t) && t.log == s.log
  {
    hide Owns, Untouched, ConnectBev.RecalculateKey;
    if connected {
      RenamedIsOwned(s.connectKey, s.bev.value, s.dialled, s.conns, named);
    } else {
      RetryIsSound(s);
    }
  }

  lemma HandshakeIsSound(s: Relay, resp: string)
    requires Executing(s) && s.bev.Some? && !s.stopped
    ensures var t := AfterHandshake(s, resp); Sound(t) && KeptApart(s, t) && t.log == s.log
  {
    hide Owns, Untouched, VerifyResponse;
    RetryIsSound(s);
    if AfterHandshake(s, resp).point.Registering? {
      SameTableApart(s, AfterHandshake(s, resp));
    }
  }

  lemma RegisterIsSound(s: Relay, reply: CasterReply)
    requires Executing(s) && s.bev.Some? && (s.stopped || s.connectKey in s.asked)
    ensures var t := AfterRegister(s, reply); Sound(t) && KeptApart(s, t) && t.log == s.log
  {
    hide Owns, Untouched, Loop;
    if reply != CasterOk {
      RetryIsSound(s);
    } else {
      TimersAside(s.connectKey, s.bev, s.dialled, s.conns);
      var t := StartBev(s.(retryDelay := FIRST_DELAY, sleeps := []));
      NextReturns(t);
      var (c, wake) := Next(t.events);
      LoopIsSound(t.(events := c), wake);
      ApartThen(s, t.(events := c), Loop(t.(events := c), wake));
    }
  }

  // ----- Each callback -----

  /** The callback that an input leads to. */
  function CallbackOf(s: Relay, i: Input): Option<CarrierEvent> {
    match i
    case Event(connected, _) => if s.armed then Some(BevEvent(connected)) else None
    case Read(_) => if s.armed then Some(BevRead) else None
    case Reply(reply) => Some(RegisterEvent(reply))
    case _ => None
  }

  /** The coroutine waits for just this. */
  predicate Answers(p: Point, e: CarrierEvent) {
    || (p.Connecting? && e.BevEvent?)
    || (p.Handshaking? && e.BevRead?)
    || (p.Registering? && e.RegisterEvent?)
  }

  /** Each callback becomes the result of exactly one await, or exactly one posted event. */
  predicate Routed(s: Relay, e: Option<CarrierEvent>, t: Relay) {
    if e.None? then t.log == s.log
    else if Answers(s.point, e.value) then t.log == Log(s.log.results + [e.value], s.log.posted)
    else t.log == Log(s.log.results, s.log.posted + [e.value])
  }

  lemma PostIsSound(s: Relay, e: CarrierEvent)
    requires Sound(s)
    ensures var t := Post(s, e);
            Sound(t) && KeptApart(s, t) && t.log == Log(s.log.results, s.log.posted + [e])
  {
    hide Owns, Untouched, Loop;
    var (c, wake) := Push(s.events, e);
    if wake.Got? {
      var u := s.(events := c, log := Log(s.log.results, s.log.posted + [e]), point := Active);
      LoopIsSound(u, wake);
      SameTableApart(s, u);
      ApartThen(s, u, Loop(u, wake));
    } else {
      SameTableApart(s, Post(s, e));
    }
  }

  lemma EventIsSound(s: Relay, connected: bool, named: string)
    requires Sound(s) && s.armed && FreshInput(s, Event(connected, named))
    ensures var t := EventCb(s, connected, named);
            Sound(t) && KeptApart(s, t) && Routed(s, Some(BevEvent(connected)), t)
  {
    hide Owns, Untouched, AfterConnect, Post;
    if s.pendingEvent {
      var u := Resumed(s.(pendingEvent := false), Connecting, BevEvent(connected));
      ConnectIsSound(u, connected, named);
      SameTableApart(s, u);
      ApartThen(s, u, AfterConnect(u, connected, named));
    } else {
      PostIsSound(s, BevEvent(connected));
    }
  }

  lemma ReadIsSound(s: Relay, bytes: string)
    requires Sound(s) && s.armed
    ensures var t := ReadCb(s, bytes); Sound(t) && KeptApart(s, t) && Routed(s, Some(BevRead), t)
  {
    hide Owns, Untouched, AfterHandshake, Post;
    if s.pendingRead {
      var u := Resumed(s.(pendingRead := false, recv := ""), Handshaking, BevRead);
      HandshakeIsSound(u, s.recv + bytes);
      SameTableApart(s, u);
      ApartThen(s, u, AfterHandshake(u, s.recv + bytes));
    } else {
      var u := s.(recv := s.recv + bytes);
      PostIsSound(u, BevRead);
      SameTableApart(s, u);
      ApartThen(s, u, Post(u, BevRead));
    }
  }

  lemma ReplyIsSound(s: Relay, reply: CasterReply)
    requires Sound(s)
    ensures var t := RegisterCb(s, reply); Sound(t) && KeptApart(s, t) && Routed(s, Some(RegisterEvent(reply)), t)
  {
    hide Owns, Untouched, AfterRegister, Post;
    if s.pendingRegister {
      var u := Resumed(s.(pendingRegister := false), Registering, RegisterEvent(reply));
      RegisterIsSound(u, reply);
      SameTableApart(s, u);
      ApartThen(s, u, AfterRegister(u, reply));
    } else {
      PostIsSound(s, RegisterEvent(reply));
    }
  }

  /** The relay has no connection, and another user has taken its last key since. */
  predicate KeyTaken(s: Relay) {
    s.bev.None? && s.connectKey in s.conns.table
  }

  predicate Timed(c: ConnectBev.Conns, key: string) {
    key in c.readTimers || key in c.writeTimers
  }

  /** Steps that reach for a connection that is not the relay's: waking up stopped, which frees it, and being
      stopped, which takes its timers away. */
  predicate Disturbs(s: Relay, i: Input) {
    KeyTaken(s) && ((i.Fires? && s.point.Asleep? && s.stopped) || (i.Stop? && Timed(s.conns, s.connectKey)))
  }

  lemma TimerIsSound(s: Relay, dial: ConnectBev.Dial)
    requires Sound(s) && FreshDial(s.conns, dial)
    ensures var t := TimerCb(s, dial); Sound(t) && (KeptApart(s, t) <==> !Disturbs(s, Fires(dial))) && t.log == s.log
  {
    hide Owns, Untouched, Top;
    if s.point.Asleep? {
      var u := s.(timers := 0, point := Active, retryDelay := Backoff(s.retryDelay));
      TopIsSound(u, dial);
      SameApart(s, u, Top(u, dial));
    } else {
      SameTableApart(s, s);
    }
  }

  lemma SameApart(s: Relay, t: Relay, u: Relay)
    requires t.conns == s.conns && Own(t) == Own(s)
    ensures KeptApart(s, u) <==> KeptApart(t, u)
  {}

  lemma DisarmedIsApart(c: ConnectBev.Conns, key: string)
    ensures Untouched({}, c, {}, ConnectBev.DelTimer(c, key)) <==> key !in c.table || !Timed(c, key)
  {
    var d := ConnectBev.DelTimer(c, key);
    if key in c.table {
      assert key !in d.readTimers && key !in d.writeTimers;
    }
  }

  lemma StopIsSound(s: Relay)
    requires Sound(s) && !s.point.Crashed?
    ensures var t := StopOutside(s); Sound(t) && (KeptApart(s, t) <==> !Disturbs(s, Stop)) && t.log == s.log
  {
    hide Owns, Untouched, Loop;
    TimersAside(s.connectKey, s.bev, s.dialled, s.conns);
    DisarmedIsApart(s.conns, s.connectKey);
    var (c, wake) := Close(s.events);
    var u := Stopping(s).(events := c);
    if s.point.Running? {
      var v := u.(point := Active);
      LoopIsSound(v, wake);
      ApartThen(s, v, Loop(v, wake));
    }
  }

  lemma NeighbourIsSound(s: Relay, op: ConnectBev.Op)
    requires Sound(s) && FreshInput(s, Neighbour(op))
    ensures var t := s.(conns := ConnectBev.Apply(s.conns, op)); Sound(t) && t.log == s.log
  {
    hide Owns;
    NeighbourKeepsOwned(s.connectKey, s.bev, s.dialled, s.conns, op);
  }

  /** Every step keeps the relay sound and turns each callback into the result of the await that the coroutine
      is in, or into a posted event. It changes no entry and no timers of the table but the relay's own,
      unless it is another user's step, exactly if it does not reach for a key that another user has taken. */
  lemma StepIsSound(s: Relay, i: Input)
    requires Sound(s) && FreshInput(s, i)
    ensures Sound(Step(s, i)) && (!i.Neighbour? ==> (KeptApart(s, Step(s, i)) <==> !Disturbs(s, i)))
    ensures !s.point.Crashed? ==> Routed(s, CallbackOf(s, i), Step(s, i))
  {
    hide Owns, Untouched, TimerCb, EventCb, ReadCb, RegisterCb, StopOutside, Suspended, Settled, Routed;
    SameTableApart(s, s);
    NothingRouted(s);
    if s.point.Crashed? {
      CrashedHasConnection(s);
    } else {
      match i {
        case Fires(dial) =>
          TimerIsSound(s, dial);
          UnloggedIsRouted(s, TimerCb(s, dial));
        case Event(connected, named) => if s.armed { EventIsSound(s, connected, named); }
        case Read(bytes) => if s.armed { ReadIsSound(s, bytes); }
        case Reply(reply) => ReplyIsSound(s, reply);
        case Stop =>
          StopIsSound(s);
          UnloggedIsRouted(s, StopOutside(s));
        case Neighbour(op) =>
          NeighbourIsSound(s, op);
          UnloggedIsRouted(s, s.(conns := ConnectBev.Apply(s.conns, op)));
      }
    }
  }

  lemma CrashedHasConnection(s: Relay)
    requires Settled(s) && s.point.Crashed?
    ensures s.bev.Some?
  {}

  lemma NothingRouted(s: Relay)
    ensures Routed(s, None, s)
  {}

  lemma UnloggedIsRouted(s: Relay, t: Relay)
    requires t.log == s.log
    ensures Routed(s, None, t)
  {}

  // ----- Every run -----

  /** The table of connections as the relay finds it. */
  ghost predicate Healthy(c: ConnectBev.Conns) {
    ConnectBev.Safe(c) && ConnectBev.Conserved(c) && "" !in c.table
  }

  /** After every run, whatever other users do to the table meanwhile with their own keys, the coroutine is
      suspended in exactly one place or has finished, or the program has ended, and it was never resumed
      elsewhere; it owns at most one connection, under its key; and its registration and its sleeps are
      settled. */
  lemma {:induction false} RunsAreSound(c: ConnectBev.Conns, dial: ConnectBev.Dial, inputs: seq<Input>)
    requires Healthy(c) && FreshDial(c, dial) && FreshInputs(Top(Created(c), dial), inputs)
    ensures Sound(Run(c, dial, inputs))
    decreases |inputs|
  {
    hide Sound, Step, Top;
    if |inputs| == 0 {
      StartIsSound(c, dial);
    } else {
      var front := inputs[..|inputs| - 1];
      RunsAreSound(c, dial, front);
      StepIsSound(Run(c, dial, front), inputs[|inputs| - 1]);
    }
  }

  lemma StartIsSound(c: ConnectBev.Conns, dial: ConnectBev.Dial)
    requires Healthy(c) && FreshDial(c, dial)
    ensures Sound(Top(Created(c), dial))
  {
    hide Top, Sound;
    assert Executing(Created(c));
    TopIsSound(Created(c), dial);
  }

  /** Asleep or finished, the relay has freed every connection it ever opened. */
  lemma NothingHeldAsleep(c: ConnectBev.Conns, dial: ConnectBev.Dial, inputs: seq<Input>, b: ConnectBev.Bev)
    requires Healthy(c) && FreshDial(c, dial) && FreshInputs(Top(Created(c), dial), inputs)
    requires var s := Run(c, dial, inputs); (s.point.Asleep? || s.point.Finished?) && b in s.dialled
    ensures b in Run(c, dial, inputs).conns.freed
  {
    hide Step, Top;
    RunsAreSound(c, dial, inputs);
  }

  lemma {:induction false} FreshBefore(s: Relay, inputs: seq<Input>, k: nat)
    requires k < |inputs| && FreshInputs(s, inputs)
    ensures FreshInputs(s, inputs[..k]) && FreshInput(After(s, inputs[..k]), inputs[k])
    decreases |inputs|
  {
    hide After, FreshInput;
    var front := inputs[..|inputs| - 1];
    if k < |front| {
      FreshBefore(s, front, k);
      assert front[..k] == inputs[..k];
    }
  }

  /** Over every run, while other users take any key that is free: the only steps of the relay that change
      an entry or a timer of the table that is not its own are those that reach for its last key after
      another user has taken it, waking up stopped or being stopped. */
  lemma OnlyTakenKeysDisturbed(c: ConnectBev.Conns, dial: ConnectBev.Dial, inputs: seq<Input>, k: nat)
    requires Healthy(c) && FreshDial(c, dial) && FreshInputs(Top(Created(c), dial), inputs)
    requires k < |inputs| && !inputs[k].Neighbour?
    ensures var s := Run(c, dial, inputs[..k]); KeptApart(s, Step(s, inputs[k])) <==> !Disturbs(s, inputs[k])
  {
    hide Step, Top, Sound, Healthy, KeptApart, Disturbs, FreshDial, FreshInput;
    FreshBefore(Top(Created(c), dial), inputs, k);
    RunsAreSound(c, dial, inputs[..k]);
    StepIsSound(Run(c, dial, inputs[..k]), inputs[k]);
  }

  /** A stopped relay that wakes up frees the connection that another user has put under its last key. */
  lemma WakingFreesOther(s: Relay, dial: ConnectBev.Dial)
    requires Sound(s) && s.point.Asleep? && s.stopped && KeyTaken(s)
    ensures var t := Step(s, Fires(dial));
            && t.point.Finished? && t.conns.table == s.conns.table - {s.connectKey}
            && t.conns.freed == s.conns.freed + [s.conns.table[s.connectKey]]
  {}

  lemma ThreeInputs(s: Relay, i: Input, j: Input, k: Input)
    ensures After(s, [i, j, k]) == Step(Step(Step(s, i), j), k)
    ensures FreshInputs(s, [i, j, k])
       <==> FreshInput(s, i) && FreshInput(Step(s, i), j) && FreshInput(Step(Step(s, i), j), k)
  {
    hide Step, FreshInput;
    assert [i, j, k][..2] == [i, j] && [i, j][..1] == [i] && [i][..0] == [];
    assert After(s, [i]) == Step(s, i);
    assert After(s, [i, j]) == Step(Step(s, i), j);
    assert FreshInputs(s, [i]) <==> FreshInput(s, i);
    assert FreshInputs(s, [i, j]) <==> FreshInput(s, i) && FreshInput(Step(s, i), j);
  }

  /** An attempt to connect has failed. */
  lemma FailedAttempt(key: string, b: ConnectBev.Bev)
    requires key != ""
    ensures var start := Top(Created(ConnectBev.NO_CONNS), ConnectBev.Dialled(key, b));
            var t := Step(start, Event(false, ""));
            && FreshInput(start, Event(false, "")) && t.point.Asleep? && t.connectKey == key && t.bev.None? && !t.armed
            && t.timers == 1 && t.events == Empty() && t.conns == ConnectBev.Conns(map[], map[], map[], {b}, [b], {})
  {
    var start := Top(Created(ConnectBev.NO_CONNS), ConnectBev.Dialled(key, b));
    assert start.point.Connecting? && start.armed && start.pendingEvent && start.conns.table == map[key := b];
  }

  /** Such a run: an attempt to connect fails, the relay is stopped while it sleeps, and another connection
      gets the key of the failed one. */
  lemma TakenKeyRun(key: string, b: ConnectBev.Bev, other: ConnectBev.Bev)
    requires key != "" && other != b
    ensures var dial, inputs := ConnectBev.Dialled(key, b), [Event(false, ""), Stop, Neighbour(ConnectBev.Accept(key, other))];
            var s := Run(ConnectBev.NO_CONNS, dial, inputs);
            && FreshInputs(Top(Created(ConnectBev.NO_CONNS), dial), inputs)
            && s.conns.table == map[key := other] && Disturbs(s, Fires(ConnectBev.Unresolved))
            && Step(s, Fires(ConnectBev.Unresolved)).conns.freed == [b, other]
  {
    hide Top;
    var start := Top(Created(ConnectBev.NO_CONNS), ConnectBev.Dialled(key, b));
    FailedAttempt(key, b);
    ThreeInputs(start, Event(false, ""), Stop, Neighbour(ConnectBev.Accept(key, other)));
    var asleep := Step(start, Event(false, ""));
    StopAsleep(asleep);
    TakesKey(Step(asleep, Stop), key, b, other);
  }

  lemma StopAsleep(s: Relay)
    requires s.point.Asleep? && s.events == Empty() && s.connectKey !in s.conns.table
    ensures var t := Step(s, Stop);
            t.point.Asleep? && t.stopped && t.conns == s.conns && t.connectKey == s.connectKey && t.bev == s.bev && t.timers == s.timers
  {}

  lemma TakesKey(s: Relay, key: string, b: ConnectBev.Bev, other: ConnectBev.Bev)
    requires s.point.Asleep? && s.stopped && s.connectKey == key && s.bev.None? && s.timers == 1 && key != "" && other != b
    requires s.conns == ConnectBev.Conns(map[], map[], map[], {b}, [b], {})
    ensures var op := ConnectBev.Accept(key, other);
            var t := Step(s, Neighbour(op));
            && FreshInput(s, Neighbour(op)) && t.conns.table == map[key := other] && Disturbs(t, Fires(ConnectBev.Unresolved))
            && Step(t, Fires(ConnectBev.Unresolved)).conns.freed == [b, other]
  {}

  function Doubled(k: nat): nat {
    if k == 0 then FIRST_DELAY else 2 * Doubled(k - 1)
  }

  lemma {:induction false} DelayIsCapped(k: nat)
    ensures Doubled(k) >= FIRST_DELAY
    ensures Delay(k) == Min(Doubled(k), LAST_DELAY)
  {
    if k > 0 {
      DelayIsCapped(k - 1);
    }
  }

  /** The k-th sleep in a row since the relay last ran lasts 5, 10, 20, ... seconds, and 60 from then on. */
  lemma SleepsBackOff(c: ConnectBev.Conns, dial: ConnectBev.Dial, inputs: seq<Input>, k: nat)
    requires Healthy(c) && FreshDial(c, dial) && FreshInputs(Top(Created(c), dial), inputs)
    requires k < |Run(c, dial, inputs).sleeps|
    ensures Run(c, dial, inputs).sleeps[k] == Min(Doubled(k), LAST_DELAY)
  {
    hide Step, Top;
    RunsAreSound(c, dial, inputs);
    DelayIsCapped(k);
  }
}
