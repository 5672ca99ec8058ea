/** The base-station coroutine as a table: what each thing that can happen makes of a carrier, place by place
    and event by event. */
module StationLaws {
  import opened Carrier
  import opened Channel
  import opened ChunkCodec
  import opened ServerNtrip

  // ----- Running -----

  /** The loop from its next `next()` on. */
  function Go(s: Server): Server {
    var (c, wake) := Next(s.events);
    Loop(s.(events := c), wake)
  }

  lemma Rests(s: Server)
    requires s.events == Chan([], false, false)
    ensures Go(s) == s.(events := Chan([], true, false), point := Running)
  {}

  lemma RestsClosed(s: Server)
    requires s.events == Chan([], false, true) && s.point.Active?
    ensures Go(s) == s.(point := Finished)
  {}

  /** A running carrier that gets an event posted reacts to it, and unless that was its end it waits again. */
  lemma PostedNow(s: Server, e: CarrierEvent)
    requires Suspended(s) && s.point.Running?
    ensures var t := React(s.(point := Active, events := Chan([], false, false), got := s.got + [e]), e);
            Post(s, e) == if t.point.Active? then Go(t) else t
  {
    hide React;
    PushWakes(s.events, e);
    LoopTurn(s.(point := Active, events := Empty()), e);
  }

  /** A running carrier is ended by a change of its connection, by any authentication reply but a positive
      one, and by a registration error, and by nothing else that is not a read: then it asks once more to be
      destroyed, withdraws its registration and closes its channel. Otherwise it just goes on waiting. */
  lemma RunningReacts(s: Server, e: CarrierEvent)
    requires Sound(s) && s.point.Running? && !e.BevRead?
    ensures var t := StepAlive(s, Callback(e));
            var fatal := e.BevEvent? || e == AuthEvent(AuthErr) || e == AuthEvent(AuthOther) || e == RegisterEvent(CasterErr);
            && (fatal ==> t == s.(point := Finished, destroys := s.destroys + 1, recorded := false,
                                  events := Chan([], false, true), got := s.got + [e]))
            && (!fatal ==> t == s.(got := s.got + [e]))
  {
    hide Publish, Go, Loop;
    PostedNow(s, e);
    Rests(s.(point := Active, events := Chan([], false, false), got := s.got + [e]));
  }

  /** Without chunking a running carrier publishes what arrives, at once and whole. */
  lemma RunningPublishes(s: Server, bytes: string)
    requires Sound(s) && s.point.Running? && !s.chunked
    ensures StepAlive(s, Read(bytes))
         == s.(received := s.received + bytes, published := s.published + bytes, got := s.got + [BevRead])
  {
    hide Go, Loop;
    var u := s.(recv := s.recv + bytes, received := s.received + bytes);
    assert s.recv + bytes == bytes;
    PostedNow(u, BevRead);
    Rests(u.(point := Active, events := Chan([], false, false), got := s.got + [BevRead],
             published := s.published + bytes, recv := ""));
  }

  /** With chunking it publishes what the decoder takes off the buffer; the decoder's stop ends the carrier
      like a lost connection, and its exception ends the program. */
  lemma RunningDecodes(s: Server, bytes: string)
    requires Sound(s) && s.point.Running? && s.chunked
    ensures var t, d := StepAlive(s, Read(bytes)), Decode(s.recv + bytes, s.chunkedSize);
            var u := s.(received := s.received + bytes, published := s.published + d.out, recv := d.buf,
                        chunkedSize := d.size, got := s.got + [BevRead]);
            && (d.end.Waits? ==> t == u)
            && (d.end.Stops? ==> t == u.(point := Finished, destroys := s.destroys + 1, recorded := false,
                                         events := Chan([], false, true)))
            && (d.end.Throws? ==> t == u.(point := Crashed, events := Chan([], false, false)))
  {
    hide Decode, Go, Loop;
    var u, d := s.(recv := s.recv + bytes, received := s.received + bytes), Decode(s.recv + bytes, s.chunkedSize);
    PostedNow(u, BevRead);
    var v := u.(point := Active, got := s.got + [BevRead], published := s.published + d.out, recv := d.buf,
                chunkedSize := d.size);
    Rests(v.(events := Chan([], false, false)));
    RestsClosed(v.(events := Chan([], false, true), destroys := s.destroys + 1, recorded := false));
  }

  // ----- Waiting for an answer, and afterwards -----

  /** Only a positive authentication reply makes the carrier ask for its registration. */
  lemma AuthAnswered(s: Server, reply: AuthReply)
    requires Sound(s) && s.point.AwaitAuth?
    ensures var t, results := StepAlive(s, Callback(AuthEvent(reply))), s.results + [AuthEvent(reply)];
            && (reply.AuthOk? ==> t == s.(point := AwaitRegister, pendingAuth := false, pendingRegister := true,
                                          recorded := true, results := results))
            && (reply.AuthErr? || reply.AuthOther? ==>
                  t == s.(point := Finished, pendingAuth := false, destroys := s.destroys + 1, recorded := false,
                          events := s.events.(closed := true), results := results))
  {}

  /** Any registration reply but a positive one ends the carrier. */
  lemma RegistrationRefused(s: Server, reply: CasterReply)
    requires Sound(s) && s.point.AwaitRegister? && (reply.CasterErr? || reply.CasterOther?)
    ensures StepAlive(s, Callback(RegisterEvent(reply)))
         == s.(point := Finished, pendingRegister := false, destroys := s.destroys + 1, recorded := false,
               events := s.events.(closed := true), results := s.results + [RegisterEvent(reply)])
  {}

  /** With nothing queued a positive reply is greeted, and then the carrier runs, or has finished if it had
      been stopped. */
  lemma RegistrationGranted(s: Server)
    requires Sound(s) && s.point.AwaitRegister? && s.events.queue == []
    ensures var t := StepAlive(s, Callback(RegisterEvent(CasterOk)));
            var u := s.(pendingRegister := false, greetings := s.greetings + 1,
                        results := s.results + [RegisterEvent(CasterOk)]);
            && (s.destroys == 0 ==> t == u.(point := Running, events := Chan([], true, false)))
            && (s.destroys > 0 ==> t == u.(point := Finished))
  {}

  /** What does not answer the carrier where it waits, and everything once it has finished, is queued. */
  lemma OthersAreQueued(s: Server, e: CarrierEvent)
    requires Sound(s)
    requires s.point.Finished? || (s.point.AwaitAuth? && !e.AuthEvent?) || (s.point.AwaitRegister? && !e.RegisterEvent?)
    ensures StepAlive(s, Callback(e)) == s.(events := s.events.(queue := s.events.queue + [e]))
  {}

  /** So are reads, behind the bytes themselves. */
  lemma ReadsAreQueued(s: Server, bytes: string)
    requires Sound(s) && (s.point.Finished? || s.point.AwaitAuth? || s.point.AwaitRegister?)
    ensures StepAlive(s, Read(bytes))
         == s.(recv := s.recv + bytes, received := s.received + bytes,
               events := s.events.(queue := s.events.queue + [BevRead]))
  {}

  /** Stopping asks once more for the carrier to be destroyed, withdraws its registration and closes its
      channel; one that runs finishes, any other stays where it is. */
  lemma StoppedExactly(s: Server)
    requires Sound(s) && !s.point.Crashed?
    ensures StepAlive(s, Stop)
         == s.(point := if s.point.Running? then Finished else s.point, destroys := s.destroys + 1, recorded := false,
               events := Chan(s.events.queue, false, true))
  {}

  /** Nothing happens any more when the program has ended. */
  lemma EndIsFinal(s: Server, i: Input)
    requires Sound(s)
    ensures Step(s, i) == if s.point.Crashed? then s else StepAlive(s, i)
  {}

  // ----- What was queued while it waited -----

  function Posts(s: Server, q: seq<CarrierEvent>): Server
    decreases |q|
  {
    if |q| == 0 then s else Posts(Post(s, q[0]), q[1..])
  }

  lemma {:induction false} PostsPileUp(s: Server, q: seq<CarrierEvent>)
    requires !s.events.waiting
    ensures Posts(s, q) == s.(events := s.events.(queue := s.events.queue + q))
    decreases |q|
  {
    if |q| == 0 {
      assert s.events.queue + q == s.events.queue;
    } else {
      PostsPileUp(Post(s, q[0]), q[1..]);
      assert s.events.queue + [q[0]] + q[1..] == s.events.queue + q;
    }
  }

  lemma QueueIsNoMatter(s: Server, e: CarrierEvent, q: seq<CarrierEvent>)
    requires s.point.Active? && s.events == Chan(q, false, false)
    ensures var t := React(s, e);
            && React(s.(events := Empty()), e) == t.(events := t.events.(queue := []))
            && t.events.queue == q && !t.events.waiting && t.got == s.got
  {
    hide Decode;
    if e.BevRead? {
      PublishIgnoresQueue(s, q);
    }
  }

  lemma PublishIgnoresQueue(s: Server, q: seq<CarrierEvent>)
    requires s.point.Active? && s.events == Chan(q, false, false)
    ensures var t := Publish(s);
            && Publish(s.(events := Empty())) == t.(events := t.events.(queue := []))
            && t.events.queue == q && !t.events.waiting && t.got == s.got
  {
    hide Decode, StopInside;
    if s.chunked {
      var d := Decode(s.recv, s.chunkedSize);
      StopIgnoresQueue(s.(recv := d.buf, chunkedSize := d.size, published := s.published + d.out), q);
    }
  }

  lemma StopIgnoresQueue(s: Server, q: seq<CarrierEvent>)
    requires s.events == Chan(q, false, false)
    ensures var t := StopInside(s);
            && StopInside(s.(events := Empty())) == t.(events := t.events.(queue := []))
            && t.events == Chan(q, false, true) && t.got == s.got
  {}

  lemma ReactKeepsGot(s: Server, e: CarrierEvent)
    ensures React(s, e).got == s.got
  {
    hide Decode;
  }

  /** What the loop has got it keeps, and it gets at least what it is handed. */
  lemma {:induction false} LoopGets(s: Server, wake: Wake<CarrierEvent>)
    ensures |Loop(s, wake).got| >= |s.got| + |Handed(wake)|
    decreases |s.events.queue|, if wake.Got? then 1 else 0
  {
    hide React;
    if wake.Got? {
      var t := React(s.(got := s.got + [wake.event]), wake.event);
      ReactKeepsGot(s.(got := s.got + [wake.event]), wake.event);
      LoopTurn(s, wake.event);
      if t.point.Active? {
        var (c, next) := Next(t.events);
        LoopGets(t.(events := c), next);
      }
    }
  }

  /** A call of the decoder stops the carrier while more than its own event is queued. */
  predicate StopsEarly(s: Server, q: seq<CarrierEvent>)
    decreases |q|
  {
    |q| > 1
    && var t := React(s.(events := Chan(q[1..], false, false), got := s.got + [q[0]]), q[0]);
       t.point.Active? && (t.events.closed || StopsEarly(t, q[1..]))
  }

  /** The first event of the queue, drained and posted. */
  lemma FirstDrained(s: Server, q: seq<CarrierEvent>)
    requires s.point.Active? && s.events == Chan(q, false, false) && |q| > 0
    ensures var t := React(s.(events := Chan(q[1..], false, false), got := s.got + [q[0]]), q[0]);
            var first := Post(s.(events := Chan([], true, false), point := Running), q[0]);
            && t.events.queue == q[1..] && !t.events.waiting
            && Go(s) == (if t.point.Active? then Go(t) else t)
            && first == if t.point.Active? then Go(t.(events := t.events.(queue := []))) else t.(events := t.events.(queue := []))
  {
    hide React, Loop;
    var u := s.(events := Chan(q[1..], false, false), got := s.got + [q[0]]);
    var w := s.(events := Chan([], true, false), point := Running);
    QueueIsNoMatter(u, q[0], q[1..]);
    assert u.(events := Empty()) == s.(events := Chan([], false, false), got := s.got + [q[0]]);
    PushWakes(w.events, q[0]);
    LoopTurn(s.(events := Empty()), q[0]);
    LoopTurn(s.(events := Chan(q[1..], false, false)), q[0]);
  }

  /** Draining the queue of an open channel is the same as waiting first and then getting its events posted
      one by one, exactly unless the decoder stops the carrier in between. Then the loop goes on through the
      queue, while nothing posted to a finished carrier is looked at. */
  lemma {:induction false} DrainingIsPosting(s: Server, q: seq<CarrierEvent>)
    requires s.point.Active? && s.events == Chan(q, false, false)
    ensures Go(s) == Posts(s.(events := Chan([], true, false), point := Running), q) <==> !StopsEarly(s, q)
    decreases |q|
  {
    hide React, Go, Loop, Post;
    var w := s.(events := Chan([], true, false), point := Running);
    if |q| == 0 {
      Rests(s);
    } else {
      var t := React(s.(events := Chan(q[1..], false, false), got := s.got + [q[0]]), q[0]);
      FirstDrained(s, q);
      var rest := t.(events := t.events.(queue := []));
      if !t.point.Active? {
        PostsPileUp(Post(w, q[0]), q[1..]);
      } else if t.events.closed {
        RestsClosed(rest);
        PostsPileUp(Post(w, q[0]), q[1..]);
        StoppedGoesOn(t, q[1..]);
      } else {
        Rests(rest);
        DrainingIsPosting(t, q[1..]);
      }
    }
  }

  lemma StoppedGoesOn(t: Server, q: seq<CarrierEvent>)
    requires t.point.Active? && t.events == Chan(q, false, true)
    ensures if q == [] then Go(t) == t.(point := Finished) else |Go(t).got| > |t.got|
  {
    hide React, Loop;
    if q == [] {
      RestsClosed(t);
    } else {
      var (c, wake) := Next(t.events);
      LoopGets(t.(events := c), wake);
    }
  }

  /** A positive answer with events queued does what the answer alone would do, and then each of the events
      in turn, as if they had only come now; exactly unless the decoder stops the carrier in between. */
  lemma QueuedIsPosted(s: Server)
    requires Sound(s) && s.point.AwaitRegister? && s.destroys == 0
    ensures var q, answer := s.events.queue, Callback(RegisterEvent(CasterOk));
            var u := s.(pendingRegister := false, point := Active, greetings := s.greetings + 1,
                        results := s.results + [RegisterEvent(CasterOk)]);
            StepAlive(s, answer) == Posts(StepAlive(s.(events := Empty()), answer), q) <==> !StopsEarly(u, q)
  {
    hide React, Loop, Posts;
    var u := s.(pendingRegister := false, point := Active, greetings := s.greetings + 1,
                results := s.results + [RegisterEvent(CasterOk)]);
    DrainingIsPosting(u, s.events.queue);
    Rests(u.(events := Chan([], false, false)));
  }

  /** Without chunking there is no decoder to stop the carrier. */
  lemma {:induction false} PlainNeverStops(s: Server, q: seq<CarrierEvent>)
    requires !s.chunked && s.point.Active?
    ensures !StopsEarly(s, q)
    decreases |q|
  {
    if |q| > 1 {
      var u := s.(events := Chan(q[1..], false, false), got := s.got + [q[0]]);
      if React(u, q[0]).point.Active? {
        PlainNeverStops(React(u, q[0]), q[1..]);
      }
    }
  }

  lemma ReactClosed(s: Server, e: CarrierEvent)
    requires s.point.Active? && !s.events.waiting
    ensures var t, u := React(s, e), React(s.(events := s.events.(closed := true)), e);
            && u == t.(events := t.events.(closed := true)) && !t.events.waiting && (s.events.closed ==> t.events.closed)
  {
    hide Decode, StopInside;
    StopClosed(s);
    if e.BevRead? && s.chunked {
      var d := Decode(s.recv, s.chunkedSize);
      StopClosed(s.(recv := d.buf, chunkedSize := d.size, published := s.published + d.out));
    }
  }

  lemma StopClosed(s: Server)
    requires !s.events.waiting
    ensures StopInside(s.(events := s.events.(closed := true))) == StopInside(s)
    ensures StopInside(s).events == s.events.(closed := true)
  {}

  /** Once the channel is closed the loop can only end. */
  lemma {:induction false} LoopOnClosed(s: Server, wake: Wake<CarrierEvent>)
    requires s.point.Active? && s.events.closed && !s.events.waiting && !wake.NoWake?
    ensures var t := Loop(s, wake); t.events.closed && !t.events.waiting && !t.point.Running?
    decreases |s.events.queue|, if wake.Got? then 1 else 0
  {
    hide React;
    if wake.Got? {
      var u := s.(got := s.got + [wake.event]);
      ReactClosed(u, wake.event);
      ReactPlaces(u, wake.event);
      LoopTurn(s, wake.event);
      var t := React(u, wake.event);
      if t.point.Active? {
        var (c, next) := Next(t.events);
        LoopOnClosed(t.(events := c), next);
      }
    }
  }

  lemma ReactPlaces(s: Server, e: CarrierEvent)
    requires s.point.Active? && !s.events.waiting
    ensures React(s, e).point in {Active, Finished, Crashed}
  {
    hide Decode;
  }

  lemma GoTurn(s: Server)
    requires s.events.queue != []
    ensures var e := s.events.queue[0];
            var t := React(s.(events := s.events.(queue := s.events.queue[1..]), got := s.got + [e]), e);
            Go(s) == if t.point.Active? then Go(t) else t
  {
    hide React, Loop;
    LoopTurn(s.(events := s.events.(queue := s.events.queue[1..])), s.events.queue[0]);
  }

  lemma GoOnClosed(s: Server)
    requires s.point.Active? && s.events.closed && !s.events.waiting
    ensures var t := Go(s); t.events.closed && !t.events.waiting && !t.point.Running?
  {
    hide Loop;
    var (c, wake) := Next(s.events);
    LoopOnClosed(s.(events := c), wake);
  }

  /** The queue of a carrier that has been stopped is drained all the same; only, where it would wait for
      more, the carrier has finished. */
  lemma {:induction false} ClosedLikeOpen(s: Server, q: seq<CarrierEvent>)
    requires s.point.Active? && s.events == Chan(q, false, false)
    ensures var t := Go(s);
            Go(s.(events := Chan(q, false, true)))
            == t.(events := Chan(t.events.queue, false, true), point := if t.point.Running? then Finished else t.point)
    decreases |q|
  {
    hide React, Go;
    var closed := s.(events := Chan(q, false, true));
    if |q| == 0 {
      Rests(s);
      RestsClosed(closed);
    } else {
      var u := s.(events := Chan(q[1..], false, false), got := s.got + [q[0]]);
      GoTurn(s);
      GoTurn(closed);
      assert closed.(events := Chan(q[1..], false, true), got := s.got + [q[0]]) == u.(events := u.events.(closed := true));
      ReactClosed(u, q[0]);
      ReactPlaces(u, q[0]);
      QueueIsNoMatter(u, q[0], q[1..]);
      var t := React(u, q[0]);
      if t.point.Active? {
        if t.events.closed {
          GoOnClosed(t);
        } else {
          ClosedLikeOpen(t, q[1..]);
        }
      }
    }
  }
}
