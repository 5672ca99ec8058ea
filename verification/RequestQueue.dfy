/** The queue of requests, and the six registries of carriers that it feeds. Stopping a carrier feeds the
    queue in turn. */
module RequestQueue {

  datatype Kind = Source | Server | Client | Nearest | Pull | Push | Unsupported

  datatype Operate = Create | Destroy | Pause | Update | NoOperate

  datatype Request = Request(kind: Kind, operate: Operate, key: string)

  /** A carrier, by identity. */
  type Obj = nat

  /** A place in one of the registries. */
  datatype Slot = Slot(kind: Kind, key: string)

  function SlotOf(req: Request): Slot {
    Slot(req.kind, req.key)
  }

  /** The carriers registered in all registries, the queue, whether the event that processes it is active,
      the number of carriers ever made, and the carriers whose `stop()` has run, in order. */
  datatype State = State(live: map<Slot, Obj>, queue: seq<Request>, active: bool, made: nat, stopped: seq<Obj>)

  // ----- One request -----

  function Enqueue(s: State, req: Request): State {
    s.(queue := s.queue + [req], active := true)
  }

  /** Relays are not reported to the queue when they stop; every other carrier asks to be destroyed. */
  predicate Reports(kind: Kind) {
    !kind.Pull? && !kind.Push?
  }

  function DestroyRequest(slot: Slot): Request {
    Request(slot.kind, Destroy, slot.key)
  }

  function StopObject(s: State, slot: Slot, o: Obj): State {
    var t := s.(stopped := s.stopped + [o]);
    if Reports(slot.kind) then Enqueue(t, DestroyRequest(slot)) else t
  }

  /** Stops and erases the carrier in the slot, if there is one. */
  function DestroyObject(s: State, slot: Slot): State {
    if slot !in s.live then s
    else
      var t := StopObject(s, slot, s.live[slot]);
      t.(live := t.live - {slot})
  }

  function Register(s: State, slot: Slot): State {
    s.(live := s.live[slot := s.made], made := s.made + 1)
  }

  /** A carrier that is already there is stopped and erased first. */
  function CreateObject(s: State, slot: Slot): State {
    Register(DestroyObject(s, slot), slot)
  }

  function ProcessRequest(s: State, req: Request): State {
    if req.kind.Unsupported? then s
    else
      match req.operate
      case Create => CreateObject(s, SlotOf(req))
      case Destroy => DestroyObject(s, SlotOf(req))
      case _ => s
  }

  /** The event that processes the queue: one request, and again if there is more. */
  function ProcessCb(s: State): State {
    var idle := s.(active := false);
    var t := if idle.queue == [] then idle
             else ProcessRequest(idle.(queue := idle.queue[1..]), idle.queue[0]);
    if t.queue == [] then t else t.(active := true)
  }

  // ----- Draining -----

  function Creates(q: seq<Request>): nat {
    if |q| == 0 then 0 else Creates(q[..|q| - 1]) + if q[|q| - 1].operate.Create? then 1 else 0
  }

  function Weight(s: State): nat {
    |s.queue| + |s.live| + Creates(s.queue)
  }

  /** The state after the event has run `n` times with no request from outside. */
  function Drained(s: State, n: nat): State
    decreases n
  {
    if n == 0 then s else Drained(ProcessCb(s), n - 1)
  }

  lemma {:induction false} DrainedOnceMore(s: State, n: nat)
    ensures Drained(s, n + 1) == ProcessCb(Drained(s, n))
    decreases n
  {
    if n > 0 {
      DrainedOnceMore(ProcessCb(s), n - 1);
    }
  }

  lemma {:induction false} CreatesFirst(q: seq<Request>)
    requires |q| > 0
    ensures Creates(q) == Creates(q[1..]) + if q[0].operate.Create? then 1 else 0
  {
    if |q| == 1 {
      assert q[..0] == [] && q[1..] == [];
    } else {
      CreatesFirst(q[..|q| - 1]);
      assert q[1..][..|q| - 2] == q[..|q| - 1][1..];
    }
  }

  lemma DestroyWeighs(s: State, slot: Slot)
    ensures var t := DestroyObject(s, slot); Weight(t) <= Weight(s) && slot !in t.live
  {
    if slot in s.live {
      assert (s.live - {slot}).Keys == s.live.Keys - {slot};
      assert |s.live - {slot}| == |s.live| - 1;
      assert (s.queue + [DestroyRequest(slot)])[..|s.queue|] == s.queue;
    }
  }

  lemma RegisterWeighs(s: State, slot: Slot)
    requires slot !in s.live
    ensures Weight(Register(s, slot)) == Weight(s) + 1
  {
    assert s.live[slot := s.made].Keys == s.live.Keys + {slot};
  }

  lemma RequestWeighs(s: State, req: Request)
    ensures Weight(ProcessRequest(s, req)) <= Weight(s) + if req.operate.Create? then 1 else 0
  {
    DestroyWeighs(s, SlotOf(req));
    RegisterWeighs(DestroyObject(s, SlotOf(req)), SlotOf(req));
  }

  /** Each run of the event makes the weight smaller, although stopping a carrier makes the queue longer. */
  lemma StepWeighsLess(s: State)
    requires s.queue != []
    ensures Weight(ProcessCb(s)) < Weight(s)
  {
    CreatesFirst(s.queue);
    RequestWeighs(s.(active := false, queue := s.queue[1..]), s.queue[0]);
  }

  lemma {:induction false} EmptyStaysEmpty(s: State, n: nat)
    requires s.queue == []
    ensures Drained(s, n).queue == [] && Drained(s, n).live == s.live
    decreases n
  {
    if n > 0 {
      EmptyStaysEmpty(ProcessCb(s), n - 1);
    }
  }

  /** With no requests from outside the queue is empty after at most as many runs of the event as there
      are requests queued, carriers registered, and creations queued. */
  lemma {:induction false} DrainsWithinWeight(s: State, n: nat)
    requires n >= Weight(s)
    ensures Drained(s, n).queue == []
    decreases n
  {
    if s.queue == [] {
      EmptyStaysEmpty(s, n);
    } else {
      StepWeighsLess(s);
      DrainsWithinWeight(ProcessCb(s), n - 1);
    }
  }

  // ----- What is registered when the queue has drained -----

  predicate Touches(req: Request, slot: Slot) {
    SlotOf(req) == slot && !slot.kind.Unsupported?
  }

  /** Whether the slot is occupied in the end, read off the queue. `doomed` says that a carrier in the slot
      has been stopped, so that a request to destroy whatever is there is on its way. */
  predicate Survives(slot: Slot, live: bool, doomed: bool, q: seq<Request>)
    decreases |q|
  {
    if |q| == 0 then live && !doomed
    else if Touches(q[0], slot) && (q[0].operate.Create? || q[0].operate.Destroy?) then
      Survives(slot, q[0].operate.Create?, doomed || (live && Reports(slot.kind)), q[1..])
    else Survives(slot, live, doomed, q[1..])
  }

  lemma {:induction false} DoomedNeverSurvives(slot: Slot, live: bool, q: seq<Request>)
    ensures !Survives(slot, live, true, q)
    decreases |q|
  {
    if |q| > 0 {
      DoomedNeverSurvives(slot, if Touches(q[0], slot) && (q[0].operate.Create? || q[0].operate.Destroy?)
                                then q[0].operate.Create? else live, q[1..]);
    }
  }

  /** A request at the end of the queue that destroys the slot dooms it; any other leaves it alone. */
  lemma {:induction false} AppendedDestroy(slot: Slot, live: bool, doomed: bool, q: seq<Request>, at: Slot)
    requires !at.kind.Unsupported?
    ensures Survives(slot, live, doomed, q + [DestroyRequest(at)])
         == (at != slot && Survives(slot, live, doomed, q))
    decreases |q|
  {
    var r := q + [DestroyRequest(at)];
    if |q| == 0 {
      assert r[1..] == [];
    } else {
      assert r[1..] == q[1..] + [DestroyRequest(at)];
      AppendedDestroy(slot, live, doomed, q[1..], at);
      AppendedDestroy(slot, q[0].operate.Create?, doomed || (live && Reports(slot.kind)), q[1..], at);
    }
  }

  lemma DestroyKeepsOutcome(slot: Slot, s: State, at: Slot)
    requires !at.kind.Unsupported?
    ensures var t := DestroyObject(s, at);
            forall now :: Survives(slot, now, false, t.queue)
                       == Survives(slot, now, slot == at && slot in s.live && Reports(slot.kind), s.queue)
  {
    var t := DestroyObject(s, at);
    forall now
      ensures Survives(slot, now, false, t.queue)
           == Survives(slot, now, slot == at && slot in s.live && Reports(slot.kind), s.queue)
    {
      if at in s.live && Reports(at.kind) {
        AppendedDestroy(slot, now, false, s.queue, at);
        DoomedNeverSurvives(slot, now, s.queue);
      }
    }
  }

  /** A run of the event does not change what the queue says about the end. */
  lemma StepKeepsOutcome(slot: Slot, s: State)
    ensures var t := ProcessCb(s);
            Survives(slot, slot in t.live, false, t.queue) == Survives(slot, slot in s.live, false, s.queue)
  {
    if s.queue != [] {
      var req := s.queue[0];
      var t := s.(active := false, queue := s.queue[1..]);
      if !req.kind.Unsupported? {
        DestroyKeepsOutcome(slot, t, SlotOf(req));
      }
    }
  }

  /** When the queue has drained, a slot is occupied exactly if the requests that were queued say so. For
      a slot that reports its stops this means that none of them stopped a carrier. */
  lemma {:induction false} DrainedSurvivors(slot: Slot, s: State, n: nat)
    requires Drained(s, n).queue == []
    ensures slot in Drained(s, n).live <==> Survives(slot, slot in s.live, false, s.queue)
    decreases n
  {
    if s.queue == [] {
      EmptyStaysEmpty(s, n);
    } else {
      StepKeepsOutcome(slot, s);
      DrainedSurvivors(slot, ProcessCb(s), n - 1);
    }
  }

  /** A carrier created under a key leaves the key occupied exactly if no other carrier was there or the
      kind is a relay: otherwise the stop of the old carrier later destroys the new one. */
  lemma CreationSurvivesExactly(slot: Slot, s: State, n: nat)
    requires !slot.kind.Unsupported? && s.queue == [Request(slot.kind, Create, slot.key)]
    requires Drained(s, n).queue == []
    ensures slot in Drained(s, n).live <==> slot !in s.live || slot.kind.Pull? || slot.kind.Push?
  {
    DrainedSurvivors(slot, s, n);
    assert s.queue[1..] == [];
  }

  // ----- Every run -----

  /** What can happen: a request is pushed from outside, the event runs, a carrier stops itself, or a
      broadcast about a relay is carried out at once. */
  datatype Input = Pushed(req: Request) | Process | SelfStop(slot: Slot) | Broadcast(req: Request)

  function Step(s: State, i: Input): State {
    match i
    case Pushed(req) => Enqueue(s, req)
    case Process => ProcessCb(s)
    case SelfStop(slot) => if slot in s.live then StopObject(s, slot, s.live[slot]) else s
    case Broadcast(req) => ProcessRequest(s, req)
  }

  const EMPTY := State(map[], [], false, 0, [])

  function Run(inputs: seq<Input>): State {
    if |inputs| == 0 then EMPTY else Step(Run(inputs[..|inputs| - 1]), inputs[|inputs| - 1])
  }

  /** Every carrier ever made is registered or its `stop()` has run; no carrier is registered twice; one
      that has stopped and reported it but is still registered has a request queued that destroys it. */
  ghost predicate Accounted(s: State) {
    && (forall o: Obj | o < s.made :: o in s.live.Values || o in s.stopped)
    && (forall o | o in s.stopped :: o < s.made)
    && (forall slot | slot in s.live :: s.live[slot] < s.made && !slot.kind.Unsupported?)
    && (forall a, b | a in s.live && b in s.live && a != b :: s.live[a] != s.live[b])
    && (forall slot | slot in s.live :: s.live[slot] in s.stopped && Reports(slot.kind) ==> DestroyRequest(slot) in s.queue)
  }

  lemma Removed(m: map<Slot, Obj>, slot: Slot, o: Obj)
    requires slot in m && o in m.Values && o != m[slot]
    ensures o in (m - {slot}).Values
  {
    var k :| k in m && m[k] == o;
    assert k in m - {slot};
  }

  lemma StopKeepsAccounts(s: State, slot: Slot)
    requires Accounted(s) && slot in s.live
    ensures Accounted(StopObject(s, slot, s.live[slot]))
  {}

  /** One request that would destroy the slot may be missing from the queue: it has just been popped. */
  ghost predicate AccountedBut(s: State, popped: Request) {
    Accounted(s.(queue := [popped] + s.queue))
  }

  lemma DestroyKeepsAccounts(s: State, slot: Slot)
    requires AccountedBut(s, DestroyRequest(slot)) && !slot.kind.Unsupported?
    ensures Accounted(DestroyObject(s, slot))
  {
    var t := DestroyObject(s, slot);
    if slot in s.live {
      forall o: Obj | o < s.made
        ensures o in t.live.Values || o in t.stopped
      {
        if o in s.live.Values && o != s.live[slot] {
          Removed(s.live, slot, o);
        }
      }
    }
  }

  lemma RegisterKeepsAccounts(s: State, slot: Slot)
    requires Accounted(s) && slot !in s.live && !slot.kind.Unsupported?
    ensures Accounted(Register(s, slot))
  {
    var t := Register(s, slot);
    assert t.live[slot] == s.made;
    forall o: Obj | o < t.made
      ensures o in t.live.Values || o in t.stopped
    {
      if o < s.made && o in s.live.Values {
        var k :| k in s.live && s.live[k] == o;
        assert t.live[k] == o;
      }
    }
  }

  lemma CreateKeepsAccounts(s: State, slot: Slot)
    requires AccountedBut(s, Request(slot.kind, Create, slot.key)) && !slot.kind.Unsupported?
    ensures Accounted(CreateObject(s, slot))
  {
    assert AccountedBut(s, DestroyRequest(slot));
    DestroyKeepsAccounts(s, slot);
    RegisterKeepsAccounts(DestroyObject(s, slot), slot);
  }

  lemma RequestKeepsAccounts(s: State, req: Request)
    requires AccountedBut(s, req)
    ensures Accounted(ProcessRequest(s, req))
  {
    if !req.kind.Unsupported? && req.operate.Create? {
      CreateKeepsAccounts(s, SlotOf(req));
    } else if !req.kind.Unsupported? && req.operate.Destroy? {
      DestroyKeepsAccounts(s, SlotOf(req));
    }
  }

  lemma StepKeepsAccounts(s: State, i: Input)
    requires Accounted(s)
    ensures Accounted(Step(s, i))
  {
    match i {
      case Pushed(_) =>
      case Process =>
        if s.queue != [] {
          var t := s.(active := false, queue := s.queue[1..]);
          assert [s.queue[0]] + s.queue[1..] == s.queue;
          RequestKeepsAccounts(t, s.queue[0]);
        }
      case SelfStop(slot) =>
        if slot in s.live {
          StopKeepsAccounts(s, slot);
        }
      case Broadcast(req) => RequestKeepsAccounts(s, req);
    }
  }

  /** The event that processes the queue is active exactly while there is anything to process. */
  predicate Awake(s: State) {
    s.active <==> s.queue != []
  }

  lemma StepKeepsAwake(s: State, i: Input)
    requires Awake(s)
    ensures Awake(Step(s, i))
  {}

  /** Over every run: no carrier leaves a registry without its `stop()` having run, none is registered
      twice, and the event that processes the queue is active exactly while a request is queued. */
  lemma {:induction false} RunsAreAccounted(inputs: seq<Input>)
    ensures Accounted(Run(inputs)) && Awake(Run(inputs))
  {
    if |inputs| > 0 {
      var s, i := Run(inputs[..|inputs| - 1]), inputs[|inputs| - 1];
      RunsAreAccounted(inputs[..|inputs| - 1]);
      StepKeepsAccounts(s, i);
      StepKeepsAwake(s, i);
      assert Run(inputs) == Step(s, i);
    }
  }

  /** When the queue is empty, no registered carrier has been stopped, relays apart. */
  lemma NoStoppedCarrierLingers(inputs: seq<Input>, slot: Slot)
    requires Run(inputs).queue == [] && slot in Run(inputs).live
    requires slot.kind.Source? || slot.kind.Server? || slot.kind.Client? || slot.kind.Nearest?
    ensures Run(inputs).live[slot] !in Run(inputs).stopped
  {
    RunsAreAccounted(inputs);
  }

  // ----- What stopping, creating and destroying do, kind by kind -----

  /** A carrier that is not a relay and stops itself asks the queue to destroy it and wakes the event; when
      the queue has drained, its place is free. */
  lemma StoppedCarrierLeaves(s: State, slot: Slot, n: nat)
    requires slot in s.live
    requires slot.kind.Source? || slot.kind.Server? || slot.kind.Client? || slot.kind.Nearest?
    ensures Step(s, SelfStop(slot)) == State(s.live, s.queue + [Request(slot.kind, Destroy, slot.key)], true,
                                             s.made, s.stopped + [s.live[slot]])
    ensures Drained(Step(s, SelfStop(slot)), n).queue == [] ==> slot !in Drained(Step(s, SelfStop(slot)), n).live
  {
    var t := Step(s, SelfStop(slot));
    if Drained(t, n).queue == [] {
      DrainedSurvivors(slot, t, n);
      AppendedDestroy(slot, true, false, s.queue, slot);
    }
  }

  /** A relay that stops itself queues nothing and stays where it is. */
  lemma StoppedRelayStays(s: State, slot: Slot)
    requires slot in s.live && (slot.kind.Pull? || slot.kind.Push?)
    ensures Step(s, SelfStop(slot)) == s.(stopped := s.stopped + [s.live[slot]])
  {}

  /** What stopping the carrier of a kind puts behind the queue: nothing for a relay. */
  function Echo(kind: Kind, key: string): seq<Request> {
    match kind
    case Pull => []
    case Push => []
    case _ => [Request(kind, Destroy, key)]
  }

  /** One run of the event takes the first request and stays active exactly while there is another one. A
      creation leaves a new carrier under the key; what was there before has been stopped, as after a
      destruction, and unless it was a relay its own request to be destroyed is now last. */
  lemma EventExactly(s: State, kind: Kind, operate: Operate, key: string, rest: seq<Request>)
    requires s.queue == [Request(kind, operate, key)] + rest
    ensures var t, slot := ProcessCb(s), Slot(kind, key);
            && (t.active <==> t.queue != [])
            && (kind.Unsupported? || operate.Pause? || operate.Update? || operate.NoOperate? ==>
                  t == State(s.live, rest, t.active, s.made, s.stopped))
            && (!kind.Unsupported? && operate.Create? && slot !in s.live ==>
                  t == State(s.live[slot := s.made], rest, t.active, s.made + 1, s.stopped))
            && (!kind.Unsupported? && operate.Create? && slot in s.live ==>
                  t == State(s.live[slot := s.made], rest + Echo(kind, key), t.active, s.made + 1,
                             s.stopped + [s.live[slot]]))
            && (!kind.Unsupported? && operate.Destroy? && slot !in s.live ==>
                  t == State(s.live, rest, t.active, s.made, s.stopped))
            && (!kind.Unsupported? && operate.Destroy? && slot in s.live ==>
                  t == State(map k | k in s.live && k != slot :: s.live[k], rest + Echo(kind, key), t.active, s.made,
                             s.stopped + [s.live[slot]]))
  {
    var slot := Slot(kind, key);
    assert s.queue[1..] == rest;
    assert rest + [] == rest;
    if slot in s.live {
      assert (s.live - {slot})[slot := s.made] == s.live[slot := s.made];
      assert s.live - {slot} == map k | k in s.live && k != slot :: s.live[k];
    }
  }

  /** With nothing queued the event only becomes inactive; a request from outside is put last and wakes it;
      a broadcast is carried out at once, before what is queued. */
  lemma OtherStepsExactly(s: State, req: Request)
    ensures s.queue == [] ==> Step(s, Process) == s.(active := false)
    ensures Step(s, Pushed(req)) == s.(queue := s.queue + [req], active := true)
    ensures forall slot | slot !in s.live :: Step(s, SelfStop(slot)) == s
    ensures var t := Step(s, Broadcast(req));
            && (s.queue == [] ==>
                  && t.live == Step(s.(queue := [req]), Process).live
                  && t.queue == Step(s.(queue := [req]), Process).queue)
            && s.queue <= t.queue
  {
    assert [req][1..] == [];
    assert [req][0] == req;
  }
}
