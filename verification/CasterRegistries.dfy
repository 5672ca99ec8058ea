/** The queue, the six registries and the request processor as objects, whose methods do what the
    functions of `RequestQueue` say. */
module CasterRegistries {
  import opened RequestQueue

  class ProcessQueue {
    var queue: seq<Request>
    var active: bool

    constructor ()
      ensures queue == [] && !active
    {
      queue, active := [], false;
    }

    method PushAndActive(req: Request)
      modifies this
      ensures queue == old(queue) + [req] && active
    {
      queue := queue + [req];
      active := true;
    }

    method Pop() returns (req: Request)
      requires queue != []
      modifies `queue
      ensures [req] + queue == old(queue)
    {
      req := queue[0];
      queue := queue[1..];
    }
  }

  /** Makes carriers and runs their `stop()`. */
  class Workshop {
    const queue: ProcessQueue
    var made: nat
    ghost var stopped: seq<Obj>

    constructor (q: ProcessQueue)
      ensures queue == q && made == 0 && stopped == []
    {
      queue, made, stopped := q, 0, [];
    }

    ghost function View(live: map<Slot, Obj>): State
      reads this, queue
    {
      State(live, queue.queue, queue.active, made, stopped)
    }

    method Make() returns (o: Obj)
      modifies `made
      ensures o == old(made) && made == o + 1
    {
      o := made;
      made := made + 1;
    }

    method Stop(slot: Slot, o: Obj, ghost live: map<Slot, Obj>)
      modifies `stopped, queue
      ensures View(live) == StopObject(old(View(live)), slot, o)
    {
      stopped := stopped + [o];
      if Reports(slot.kind) {
        queue.PushAndActive(DestroyRequest(slot));
      }
    }
  }

  /** The carriers of one kind. */
  class Registry {
    const kind: Kind
    const shop: Workshop
    var objMap: map<string, Obj>

    constructor (k: Kind, s: Workshop)
      ensures kind == k && shop == s && objMap == map[] && Holds(map[])
    {
      kind, shop, objMap := k, s, map[];
    }

    /** The registry holds exactly the carriers of its kind. */
    ghost predicate Holds(live: map<Slot, Obj>)
      reads this
    {
      && (forall key :: key in objMap <==> Slot(kind, key) in live)
      && (forall key | key in objMap :: objMap[key] == live[Slot(kind, key)])
    }

    /** What happens in a slot of another kind does not matter. */
    lemma HoldsElsewhere(before: map<Slot, Obj>, after: map<Slot, Obj>, slot: Slot)
      requires Holds(before) && slot.kind != kind && after - {slot} == before - {slot}
      ensures Holds(after)
    {
      forall key
        ensures Slot(kind, key) in after <==> Slot(kind, key) in before
        ensures Slot(kind, key) in after ==> after[Slot(kind, key)] == before[Slot(kind, key)]
      {
        assert Slot(kind, key) in after - {slot} <==> Slot(kind, key) in before - {slot};
      }
    }

    method DestroyIn(key: string, ghost live: map<Slot, Obj>)
      requires Holds(live)
      modifies this, shop, shop.queue
      ensures shop.View(live - {Slot(kind, key)}) == DestroyObject(old(shop.View(live)), Slot(kind, key))
      ensures Holds(live - {Slot(kind, key)})
    {
      if key in objMap {
        shop.Stop(Slot(kind, key), objMap[key], live);
        objMap := objMap - {key};
      } else {
        assert live - {Slot(kind, key)} == live;
      }
    }

    /** The new carrier is made first; one that is already there is stopped and erased. */
    method CreateIn(key: string, ghost live: map<Slot, Obj>)
      requires Holds(live)
      modifies this, shop, shop.queue
      ensures shop.View(live[Slot(kind, key) := old(shop.made)]) == CreateObject(old(shop.View(live)), Slot(kind, key))
      ensures Holds(live[Slot(kind, key) := old(shop.made)])
    {
      var obj := shop.Make();
      DestroyIn(key, live);
      objMap := objMap[key := obj];
      assert (live - {Slot(kind, key)})[Slot(kind, key) := obj] == live[Slot(kind, key) := obj];
    }

    method OperateObject(req: Request, ghost live: map<Slot, Obj>) returns (ghost now: map<Slot, Obj>)
      requires Holds(live) && req.kind == kind && !kind.Unsupported?
      modifies this, shop, shop.queue
      ensures shop.View(now) == ProcessRequest(old(shop.View(live)), req)
      ensures Holds(now) && now - {SlotOf(req)} == live - {SlotOf(req)}
    {
      now := live;
      if req.operate.Create? {
        now := live[SlotOf(req) := shop.made];
        CreateIn(req.key, live);
      } else if req.operate.Destroy? {
        now := live - {SlotOf(req)};
        DestroyIn(req.key, live);
      }
    }
  }

  class NtripCaster {
    const queue: ProcessQueue
    const shop: Workshop
    const sources: Registry
    const servers: Registry
    const clients: Registry
    const nears: Registry
    const pulls: Registry
    const pushs: Registry
    ghost var live: map<Slot, Obj>

    ghost function Registries(): set<Registry> {
      {sources, servers, clients, nears, pulls, pushs}
    }

    ghost predicate Valid()
      reads this, Registries()
    {
      && sources.kind == Source && servers.kind == Server && clients.kind == Client
      && nears.kind == Nearest && pulls.kind == Pull && pushs.kind == Push
      && shop.queue == queue
      && (forall r | r in Registries() :: r.shop == shop && r.Holds(live))
    }

    ghost function View(): State
      reads this, shop, queue
    {
      State(live, queue.queue, queue.active, shop.made, shop.stopped)
    }

    constructor ()
      ensures Valid() && View() == EMPTY
    {
      hide Registry.Holds;
      var q := new ProcessQueue();
      var s := new Workshop(q);
      queue, shop, live := q, s, map[];
      sources := new Registry(Source, s);
      servers := new Registry(Server, s);
      clients := new Registry(Client, s);
      nears := new Registry(Nearest, s);
      pulls := new Registry(Pull, s);
      pushs := new Registry(Push, s);
    }

    method Operate(r: Registry, req: Request)
      requires Valid() && r in Registries() && req.kind == r.kind
      modifies this`live, r, shop, queue
      ensures Valid() && View() == ProcessRequest(old(View()), req)
    {
      ghost var before := live;
      live := r.OperateObject(req, before);
      forall o | o in Registries() && o != r
        ensures o.Holds(live)
      {
        o.HoldsElsewhere(before, live, SlotOf(req));
      }
    }

    /** Dispatches a request to the registry of its kind. */
    method Dispatch(req: Request)
      requires Valid()
      modifies this`live, Registries(), shop, queue
      ensures Valid() && View() == ProcessRequest(old(View()), req)
    {
      match req.kind {
        case Source => Operate(sources, req);
        case Server => Operate(servers, req);
        case Client => Operate(clients, req);
        case Nearest => Operate(nears, req);
        case Pull => Operate(pulls, req);
        case Push => Operate(pushs, req);
        case Unsupported =>
      }
    }

    /** The callback of the event that processes the queue. */
    method RequestProcessCb()
      requires Valid()
      modifies this`live, Registries(), shop, queue
      ensures Valid() && View() == ProcessCb(old(View()))
    {
      queue.active := false;
      if queue.queue != [] {
        var req := queue.Pop();
        Dispatch(req);
      }
      if queue.queue != [] {
        queue.active := true;
      }
    }

    /** The event loop with no request from outside: it comes to rest within the weight. */
    method RunUntilIdle() returns (runs: nat)
      requires Valid()
      modifies this`live, Registries(), shop, queue
      ensures Valid() && queue.queue == [] && runs <= Weight(old(View()))
      ensures View() == Drained(old(View()), runs)
    {
      ghost var start := View();
      runs := 0;
      while queue.queue != []
        invariant Valid() && View() == Drained(start, runs)
        invariant runs + Weight(View()) <= Weight(start)
        decreases Weight(View())
      {
        StepWeighsLess(View());
        DrainedOnceMore(start, runs);
        RequestProcessCb();
        runs := runs + 1;
      }
    }
  }
}
