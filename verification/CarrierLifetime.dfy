/** How long a carrier of an accepted connection lives, and the connection it points to: the registries keep
    it, and so does its own coroutine until it ends; its destructor frees whatever connection is stored under
    its key by then. */
module CarrierLifetime {
  import opened ConnectBev
  import opened Options
  import opened RequestQueue

  /** A carrier: the connection it fetched when it was made, and whether its coroutine still waits for an
      answer, which keeps the carrier alive. */
  datatype Holder = Holder(key: string, bev: Option<Bev>, awaiting: bool)

  /** The registered carriers, and in `late` those that were erased while their coroutine waited. */
  datatype Lives = Lives(conns: Conns, held: map<Slot, Holder>, late: seq<Holder>)

  /** Stops the carrier in the slot and erases it. If its coroutine ends with that, it is destroyed. */
  function Erase(s: Lives, slot: Slot): Lives {
    if slot !in s.held then s
    else
      var h := s.held[slot];
      var t := s.(held := s.held - {slot}, conns := DelTimer(s.conns, h.key));
      if h.awaiting then t.(late := t.late + [h]) else t.(conns := DelBev(t.conns, h.key))
  }

  /** The new carrier fetches its connection before the old one is erased. */
  function Replace(s: Lives, slot: Slot): Lives {
    var h := Holder(slot.key, GetBev(s.conns, slot.key), true);
    var t := Erase(s, slot);
    t.(held := t.held[slot := h])
  }

  /** What can happen: a request makes or destroys a carrier, the coroutine of a registered one waits for no
      answer any more, that of an erased one gets its answer and ends, or another user of the table of
      connections changes it. */
  datatype Event =
    | Made(slot: Slot)
    | Destroyed(slot: Slot)
    | Settled(slot: Slot)
    | Answered(i: nat)
    | Elsewhere(op: ConnectBev.Op)

  function Happen(s: Lives, e: Event): Lives {
    match e
    case Made(slot) => Replace(s, slot)
    case Destroyed(slot) => Erase(s, slot)
    case Settled(slot) =>
      if slot in s.held then s.(held := s.held[slot := s.held[slot].(awaiting := false)]) else s
    case Answered(i) =>
      if i < |s.late| then s.(late := s.late[..i] + s.late[i + 1..], conns := DelBev(s.conns, s.late[i].key)) else s
    case Elsewhere(op) => s.(conns := ConnectBev.Apply(s.conns, op))
  }

  function AfterAll(s: Lives, events: seq<Event>): Lives {
    if |events| == 0 then s else Happen(AfterAll(s, events[..|events| - 1]), events[|events| - 1])
  }

  /** The slots that are taken are those of `RequestQueue`. */
  lemma SameSlots(r: State, s: Lives, slot: Slot)
    requires r.live.Keys == s.held.Keys
    ensures CreateObject(r, slot).live.Keys == Replace(s, slot).held.Keys
    ensures DestroyObject(r, slot).live.Keys == Erase(s, slot).held.Keys
  {}

  /** A carrier that is erased loses its timers. If its coroutine still waits, it lives on; if not, the
      connection under its key goes with it. */
  lemma ErasedExactly(s: Lives, slot: Slot)
    ensures slot !in s.held ==> Happen(s, Destroyed(slot)) == s
    ensures slot in s.held && s.held[slot].awaiting ==>
              Happen(s, Destroyed(slot))
              == Lives(DelTimer(s.conns, s.held[slot].key), map k | k in s.held && k != slot :: s.held[k],
                       s.late + [s.held[slot]])
    ensures slot in s.held && !s.held[slot].awaiting ==>
              Happen(s, Destroyed(slot))
              == Lives(DelBev(s.conns, s.held[slot].key), map k | k in s.held && k != slot :: s.held[k], s.late)
  {
    assert s.held - {slot} == map k | k in s.held && k != slot :: s.held[k];
    if slot in s.held {
      var c, key := s.conns, s.held[slot].key;
      assert c.readTimers - {key} - {key} == c.readTimers - {key};
      assert c.writeTimers - {key} - {key} == c.writeTimers - {key};
    }
  }

  /** A new carrier waits, with the connection that its key has led to before an old one was erased. */
  lemma MadeExactly(s: Lives, slot: Slot)
    ensures var t, bev := Happen(s, Destroyed(slot)), if slot.key in s.conns.table then Some(s.conns.table[slot.key]) else None;
            Happen(s, Made(slot)) == Lives(t.conns, t.held[slot := Holder(slot.key, bev, true)], t.late)
  {}

  /** An answer to a carrier that lives on is its end, and that of the connection under its key. */
  lemma OthersExactly(s: Lives, slot: Slot, i: nat, op: ConnectBev.Op)
    ensures Happen(s, Settled(slot))
         == if slot !in s.held then s
            else Lives(s.conns, s.held[slot := Holder(s.held[slot].key, s.held[slot].bev, false)], s.late)
    ensures Happen(s, Answered(i))
         == if i >= |s.late| then s else Lives(DelBev(s.conns, s.late[i].key), s.held, s.late[..i] + s.late[i + 1..])
    ensures Happen(s, Elsewhere(op)) == Lives(ConnectBev.Apply(s.conns, op), s.held, s.late)
  {}

  // ----- When a carrier points to a connection that is gone -----

  /** The registered carrier points to a connection that has been freed. */
  predicate Dangles(s: Lives, slot: Slot) {
    slot in s.held && s.held[slot].bev.Some? && s.held[slot].bev.value in s.conns.freed
  }

  /** Every registered carrier points to the connection that is stored under its key, if to any. */
  ghost predicate Intact(s: Lives) {
    && Safe(s.conns) && Conserved(s.conns)
    && (forall slot | slot in s.held :: s.held[slot].key == slot.key)
    && (forall slot | slot in s.held && s.held[slot].bev.Some? :: GetBev(s.conns, slot.key) == s.held[slot].bev)
  }

  /** The key of the carrier that the event destroys. */
  function KeyOfDestroyed(s: Lives, e: Event): Option<string> {
    match e
    case Made(slot) => if slot in s.held && !s.held[slot].awaiting then Some(slot.key) else None
    case Destroyed(slot) => if slot in s.held && !s.held[slot].awaiting then Some(slot.key) else None
    case Answered(i) => if i < |s.late| then Some(s.late[i].key) else None
    case _ => None
  }

  lemma TimerKeepsEntries(c: Conns, key: string)
    requires Safe(c) && Conserved(c)
    ensures var d := DelTimer(c, key); Safe(d) && Conserved(d) && d.table == c.table && d.freed == c.freed
  {}

  /** A destructor frees the connection stored under its key, and no other. */
  lemma DestructorFrees(c: Conns, key: string, b: Bev, k: string)
    requires Safe(c) && Conserved(c) && GetBev(c, k) == Some(b)
    ensures var d := DelBev(c, key);
            && Safe(d) && Conserved(d) && (b in d.freed <==> k == key)
            && (k != key ==> GetBev(d, k) == Some(b))
  {
    DelKeepsSafe(c, key);
  }

  /** What an event makes of the table, as far as the carriers are concerned. */
  lemma EventOnTable(s: Lives, e: Event)
    requires Intact(s) && !e.Elsewhere?
    ensures var c, d := s.conns, Happen(s, e).conns;
            match KeyOfDestroyed(s, e)
            case None => d.table == c.table && d.freed == c.freed && Safe(d) && Conserved(d)
            case Some(key) => exists b: Conns :: b.table == c.table && b.freed == c.freed && Safe(b) && Conserved(b) && d == DelBev(b, key)
  {
    hide Safe, Conserved, DelBev;
    match e {
      case Made(slot) => if slot in s.held { TimerKeepsEntries(s.conns, slot.key); }
      case Destroyed(slot) => if slot in s.held { TimerKeepsEntries(s.conns, slot.key); }
      case _ =>
    }
  }

  /** Which connections are freed by an event. */
  lemma EventFrees(s: Lives, e: Event, k: string, b: Bev)
    requires Intact(s) && !e.Elsewhere? && GetBev(s.conns, k) == Some(b)
    ensures b in Happen(s, e).conns.freed <==> KeyOfDestroyed(s, e) == Some(k)
  {
    hide Happen, Intact, KeyOfDestroyed, DelBev;
    EventOnTable(s, e);
    assert b !in s.conns.freed by { NotFreedYet(s, k, b); }
    if KeyOfDestroyed(s, e).Some? {
      var key := KeyOfDestroyed(s, e).value;
      var before: Conns :| before.table == s.conns.table && before.freed == s.conns.freed && Safe(before) && Conserved(before)
                           && Happen(s, e).conns == DelBev(before, key);
      DestructorFrees(before, key, b, k);
    }
  }

  lemma NotFreedYet(s: Lives, k: string, b: Bev)
    requires Intact(s) && GetBev(s.conns, k) == Some(b)
    ensures b !in s.conns.freed
  {}

  /** What a registered carrier points to was stored under its key before the event. */
  lemma PointedBefore(s: Lives, e: Event, slot: Slot)
    requires Intact(s) && !e.Elsewhere? && slot in Happen(s, e).held && Happen(s, e).held[slot].bev.Some?
    ensures GetBev(s.conns, slot.key) == Happen(s, e).held[slot].bev
  {
    hide Safe, Conserved;
  }

  /** A registered carrier comes to point to a freed connection exactly if the event destroys a carrier with
      the same key. */
  lemma DanglesExactlyIfKeyDestroyed(s: Lives, e: Event, slot: Slot)
    requires Intact(s) && !e.Elsewhere? && slot in Happen(s, e).held && Happen(s, e).held[slot].bev.Some?
    ensures Dangles(Happen(s, e), slot) <==> KeyOfDestroyed(s, e) == Some(slot.key)
  {
    hide Happen, Intact, KeyOfDestroyed, GetBev;
    PointedBefore(s, e, slot);
    EventFrees(s, e, slot.key, Happen(s, e).held[slot].bev.value);
  }

  /** A carrier that replaces another one of a connection that is still stored gets a connection that is
      freed under it: at once if the old carrier was running, and else when the old one gets its answer. */
  lemma ReplacementDangles(s: Lives, slot: Slot)
    requires Intact(s) && slot in s.held && slot.key in s.conns.table
    ensures var t := Replace(s, slot);
            if s.held[slot].awaiting then !Dangles(t, slot) && Dangles(Happen(t, Answered(|s.late|)), slot)
            else Dangles(t, slot)
  {
    DanglesExactlyIfKeyDestroyed(s, Made(slot), slot);
    if s.held[slot].awaiting {
      var t := Replace(s, slot);
      ReplacedStaysIntact(s, slot);
      assert t.late == s.late + [s.held[slot]];
      DanglesExactlyIfKeyDestroyed(t, Answered(|s.late|), slot);
    }
  }

  lemma ReplacedStaysIntact(s: Lives, slot: Slot)
    requires Intact(s) && slot in s.held && s.held[slot].awaiting
    ensures Intact(Replace(s, slot))
  {
    hide Safe, Conserved;
    TimerKeepsEntries(s.conns, slot.key);
  }

  // ----- Runs in which no key is taken twice -----

  /** The key belongs to a carrier that is registered or late. */
  predicate Taken(s: Lives, key: string) {
    (exists slot :: slot in s.held && slot.key == key) || (exists i :: 0 <= i < |s.late| && s.late[i].key == key)
  }

  /** No two carriers that are alive have the same key. */
  predicate OneEach(s: Lives) {
    && (forall a, b | a in s.held && b in s.held && a.key == b.key :: a == b)
    && (forall i, j | 0 <= i < j < |s.late| :: s.late[i].key != s.late[j].key)
    && (forall a, i | a in s.held && 0 <= i < |s.late| :: a.key != s.late[i].key)
  }

  /** A carrier is made only under a key that no living carrier has, and other users of the table allocate
      new connections and keep off the keys of carriers. */
  predicate Considerate(s: Lives, e: Event) {
    match e
    case Made(slot) => !Taken(s, slot.key)
    case Elsewhere(op) => Fresh(s.conns, op) && forall slot | slot in s.held :: slot.key !in KeysOf(op)
    case _ => true
  }

  predicate AllConsiderate(s: Lives, events: seq<Event>) {
    |events| > 0 ==>
      var front := events[..|events| - 1];
      AllConsiderate(s, front) && Considerate(AfterAll(s, front), events[|events| - 1])
  }

  lemma SettledStaysOneEach(s: Lives, e: Event)
    requires OneEach(s) && (e.Settled? || e.Elsewhere?)
    ensures OneEach(Happen(s, e))
  {}

  lemma ErasedStaysOneEach(s: Lives, slot: Slot)
    requires OneEach(s) && (slot in s.held ==> s.held[slot].key == slot.key)
    ensures var t := Erase(s, slot); OneEach(t) && (!Taken(s, slot.key) ==> !Taken(t, slot.key))
  {}

  lemma MadeStaysOneEach(s: Lives, slot: Slot)
    requires OneEach(s) && !Taken(s, slot.key)
    ensures OneEach(Replace(s, slot))
  {
    assert slot !in s.held;
  }

  lemma AnsweredStaysOneEach(s: Lives, i: nat)
    requires OneEach(s) && i < |s.late|
    ensures OneEach(Happen(s, Answered(i)))
  {
    var late := s.late[..i] + s.late[i + 1..];
    assert forall j | 0 <= j < |late| :: late[j] == s.late[if j < i then j else j + 1];
  }

  lemma OneEachStays(s: Lives, e: Event)
    requires OneEach(s) && Considerate(s, e) && forall slot | slot in s.held :: s.held[slot].key == slot.key
    ensures OneEach(Happen(s, e))
  {
    hide OneEach, Taken, Replace, Erase;
    match e {
      case Made(slot) => MadeStaysOneEach(s, slot);
      case Destroyed(slot) => ErasedStaysOneEach(s, slot);
      case Answered(i) => if i < |s.late| { AnsweredStaysOneEach(s, i); }
      case _ => SettledStaysOneEach(s, e);
    }
  }

  /** Whose key is destroyed is not registered any more. */
  lemma DestroyedKeyIsGone(s: Lives, e: Event, slot: Slot)
    requires OneEach(s) && Considerate(s, e) && slot in Happen(s, e).held
    ensures KeyOfDestroyed(s, e) != Some(slot.key)
  {}

  /** Entries under keys that are not destroyed stay. */
  lemma EventKeeps(s: Lives, e: Event, k: string, b: Bev)
    requires Intact(s) && !e.Elsewhere? && GetBev(s.conns, k) == Some(b) && KeyOfDestroyed(s, e) != Some(k)
    ensures GetBev(Happen(s, e).conns, k) == Some(b)
  {
    hide Happen, Intact, KeyOfDestroyed, DelBev;
    EventOnTable(s, e);
    if KeyOfDestroyed(s, e).Some? {
      var key := KeyOfDestroyed(s, e).value;
      var before: Conns :| before.table == s.conns.table && before.freed == s.conns.freed && Safe(before) && Conserved(before)
                           && Happen(s, e).conns == DelBev(before, key);
      DestructorFrees(before, key, b, k);
    }
  }

  lemma EventKeepsSafe(s: Lives, e: Event)
    requires Intact(s) && !e.Elsewhere?
    ensures Safe(Happen(s, e).conns) && Conserved(Happen(s, e).conns)
  {
    hide Happen, Intact, KeyOfDestroyed, DelBev, Safe, Conserved;
    EventOnTable(s, e);
    if KeyOfDestroyed(s, e).Some? {
      var key := KeyOfDestroyed(s, e).value;
      var before: Conns :| before.table == s.conns.table && before.freed == s.conns.freed && Safe(before) && Conserved(before)
                           && Happen(s, e).conns == DelBev(before, key);
      DelKeepsSafe(before, key);
    }
  }

  lemma KeysStay(s: Lives, e: Event)
    requires forall slot | slot in s.held :: s.held[slot].key == slot.key
    ensures forall slot | slot in Happen(s, e).held :: Happen(s, e).held[slot].key == slot.key
  {}

  lemma NeighbourStaysIntact(s: Lives, op: ConnectBev.Op)
    requires Intact(s) && Considerate(s, Elsewhere(op))
    ensures Intact(Happen(s, Elsewhere(op)))
  {
    hide Safe, Conserved, ConnectBev.Apply, ConnectBev.Fresh, ConnectBev.KeysOf;
    StepKeepsSafe(s.conns, op);
    forall slot | slot in s.held
      ensures GetBev(ConnectBev.Apply(s.conns, op), slot.key) == GetBev(s.conns, slot.key)
    {
      OtherEntriesStay(s.conns, op, slot.key);
    }
  }

  lemma StepStaysIntact(s: Lives, e: Event)
    requires Intact(s) && OneEach(s) && Considerate(s, e)
    ensures Intact(Happen(s, e)) && OneEach(Happen(s, e))
  {
    hide Safe, Conserved, OneEach, Considerate, GetBev, KeyOfDestroyed;
    OneEachStays(s, e);
    if e.Elsewhere? {
      NeighbourStaysIntact(s, e.op);
    } else {
      EventKeepsSafe(s, e);
      KeysStay(s, e);
      forall slot | slot in Happen(s, e).held && Happen(s, e).held[slot].bev.Some?
        ensures GetBev(Happen(s, e).conns, slot.key) == Happen(s, e).held[slot].bev
      {
        PointedBefore(s, e, slot);
        DestroyedKeyIsGone(s, e, slot);
        EventKeeps(s, e, slot.key, Happen(s, e).held[slot].bev.value);
      }
    }
  }

  lemma {:induction false} ConsiderateStaysIntact(s: Lives, events: seq<Event>)
    requires Intact(s) && OneEach(s) && AllConsiderate(s, events)
    ensures Intact(AfterAll(s, events)) && OneEach(AfterAll(s, events))
    decreases |events|
  {
    hide Happen, Intact, OneEach, Considerate;
    if |events| > 0 {
      ConsiderateStaysIntact(s, events[..|events| - 1]);
      StepStaysIntact(AfterAll(s, events[..|events| - 1]), events[|events| - 1]);
    }
  }

  /** In a run in which no carrier is made under the key of one that is still alive, no registered carrier
      ever points to a connection that has been freed. */
  lemma NothingDangles(c: Conns, events: seq<Event>, slot: Slot)
    requires Safe(c) && Conserved(c) && AllConsiderate(Lives(c, map[], []), events)
    ensures !Dangles(AfterAll(Lives(c, map[], []), events), slot)
  {
    hide Happen, Considerate, Conserved;
    ConsiderateStaysIntact(Lives(c, map[], []), events);
    var s := AfterAll(Lives(c, map[], []), events);
    if slot in s.held && s.held[slot].bev.Some? {
      NotFreedYet(s, slot.key, s.held[slot].bev.value);
    }
  }

  // ----- Carriers made and destroyed by queued requests -----

  /** The registries with their queue, and the carriers in them with their connections. */
  datatype Service = Service(registries: State, lives: Lives)

  /** The queue is processed or gets a request, or a coroutine goes on, or the table changes. */
  datatype Occurrence = Queued(input: RequestQueue.Input) | Alive(event: Event)

  /** What processing a request makes of the carrier in its slot. */
  function Effect(req: Request): Option<Event> {
    if req.kind.Unsupported? then None
    else
      match req.operate
      case Create => Some(Made(SlotOf(req)))
      case Destroy => Some(Destroyed(SlotOf(req)))
      case _ => None
  }

  function Processed(r: State, i: RequestQueue.Input): Option<Event> {
    match i
    case Process => if r.queue == [] then None else Effect(r.queue[0])
    case Broadcast(req) => Effect(req)
    case _ => None
  }

  function Occur(s: Service, o: Occurrence): Service {
    match o
    case Queued(i) =>
      var e := Processed(s.registries, i);
      Service(RequestQueue.Step(s.registries, i), if e.None? then s.lives else Happen(s.lives, e.value))
    case Alive(e) => s.(lives := Happen(s.lives, e))
  }

  function Served(c: Conns, occurrences: seq<Occurrence>): Service {
    if |occurrences| == 0 then Service(EMPTY, Lives(c, map[], []))
    else Occur(Served(c, occurrences[..|occurrences| - 1]), occurrences[|occurrences| - 1])
  }

  /** Only requests make and destroy carriers, and they make one only under a key that no living carrier has. */
  predicate Careful(s: Service, o: Occurrence) {
    match o
    case Queued(i) => var e := Processed(s.registries, i); e.Some? ==> Considerate(s.lives, e.value)
    case Alive(e) => !e.Made? && !e.Destroyed? && Considerate(s.lives, e)
  }

  predicate AllCareful(c: Conns, occurrences: seq<Occurrence>) {
    |occurrences| > 0 ==>
      var front := occurrences[..|occurrences| - 1];
      AllCareful(c, front) && Careful(Served(c, front), occurrences[|occurrences| - 1])
  }

  lemma QueueKeepsSlots(s: Service, i: RequestQueue.Input)
    requires s.registries.live.Keys == s.lives.held.Keys
    ensures var t := Occur(s, Queued(i)); t.registries.live.Keys == t.lives.held.Keys
  {
    hide Replace, Erase, CreateObject, DestroyObject;
    match i {
      case Process =>
        if s.registries.queue != [] {
          SameSlots(s.registries.(active := false, queue := s.registries.queue[1..]), s.lives, SlotOf(s.registries.queue[0]));
        }
      case Broadcast(req) => SameSlots(s.registries, s.lives, SlotOf(req));
      case _ =>
    }
  }

  lemma LifeKeepsSlots(s: Lives, e: Event)
    requires !e.Made? && !e.Destroyed?
    ensures Happen(s, e).held.Keys == s.held.Keys
  {}

  lemma {:induction false} ServiceStaysIntact(c: Conns, occurrences: seq<Occurrence>)
    requires Safe(c) && Conserved(c) && AllCareful(c, occurrences)
    ensures var s := Served(c, occurrences);
            s.registries.live.Keys == s.lives.held.Keys && Intact(s.lives) && OneEach(s.lives)
    decreases |occurrences|
  {
    hide Safe, Conserved, Happen, OneEach, Considerate, RequestQueue.Step, Processed;
    if |occurrences| == 0 {
      NothingYet(c);
    } else {
      var s, o := Served(c, occurrences[..|occurrences| - 1]), occurrences[|occurrences| - 1];
      ServiceStaysIntact(c, occurrences[..|occurrences| - 1]);
      match o {
        case Queued(i) =>
          QueueKeepsSlots(s, i);
          var e := Processed(s.registries, i);
          if e.Some? {
            StepStaysIntact(s.lives, e.value);
          }
        case Alive(e) =>
          LifeKeepsSlots(s.lives, e);
          StepStaysIntact(s.lives, e);
      }
    }
  }

  lemma NothingYet(c: Conns)
    requires Safe(c) && Conserved(c)
    ensures Intact(Lives(c, map[], [])) && OneEach(Lives(c, map[], []))
  {}

  /** Over every run of the request queue in which no request makes a carrier under the key of one that is
      still alive, no carrier in a registry ever points to a connection that has been freed. */
  lemma NoRequestLeavesDangling(c: Conns, occurrences: seq<Occurrence>, slot: Slot)
    requires Safe(c) && Conserved(c) && AllCareful(c, occurrences) && slot in Served(c, occurrences).registries.live
    ensures slot in Served(c, occurrences).lives.held && !Dangles(Served(c, occurrences).lives, slot)
  {
    hide Safe, Conserved, Occur, OneEach;
    ServiceStaysIntact(c, occurrences);
    var s := Served(c, occurrences).lives;
    if s.held[slot].bev.Some? {
      NotFreedYet(s, slot.key, s.held[slot].bev.value);
    }
  }
}
