/** What one session of a relay leaves to the next: bytes that were not decoded, and the size of a chunk that
    has not arrived as a whole. */
module Reconnect {
  import opened Carrier
  import opened Channel
  import opened ChunkCodec
  import opened ChunkStream
  import opened Draining
  import opened EvBuffer
  import opened Handshake
  import opened Options
  import opened RelayOutcomes
  import opened RelayPull
  import ConnectBev

  // ----- From leaving one session to entering the next -----

  predicate BetweenSessions(p: Point) {
    p.Asleep? || p.Connecting? || p.Handshaking? || p.Registering?
  }

  /** A positive answer to the registration starts a session. */
  predicate Enters(s: Relay, i: Input) {
    s.point.Registering? && i == Reply(CasterOk)
  }

  /** The relay never leaves the stretch between two sessions. */
  predicate NoSession(s: Relay, inputs: seq<Input>) {
    && BetweenSessions(After(s, inputs).point)
    && (|inputs| > 0 ==>
          var front := inputs[..|inputs| - 1];
          NoSession(s, front) && !Enters(After(s, front), inputs[|inputs| - 1]))
  }

  /** The buffer between sessions: what the last session left, then all that arrives, until a handshake takes
      everything. */
  function Carried(s: Relay, inputs: seq<Input>): string {
    if |inputs| == 0 then s.recv
    else
      var front := inputs[..|inputs| - 1];
      var t := After(s, front);
      match inputs[|inputs| - 1]
      case Read(bytes) =>
        if !t.armed then Carried(s, front) else if t.point.Handshaking? then "" else Carried(s, front) + bytes
      case _ => Carried(s, front)
  }

  predicate NoReads(inputs: seq<Input>) {
    forall k | 0 <= k < |inputs| :: !inputs[k].Read?
  }

  lemma PostBetween(s: Relay, e: CarrierEvent)
    requires Suspended(s) && BetweenSessions(s.point)
    ensures Post(s, e) == s.(events := s.events.(queue := s.events.queue + [e]), log := Log(s.log.results, s.log.posted + [e]))
  {
    hide Loop;
  }

  /** The decoder's state is what it was, but for the buffer. */
  predicate SameDecoder(s: Relay, t: Relay, recv: string) {
    t.chunkedSize == s.chunkedSize && t.recv == recv && t.published == s.published
  }

  lemma TopKeepsDecoder(s: Relay, dial: ConnectBev.Dial)
    ensures SameDecoder(s, Top(s, dial), s.recv)
  {
    hide ConnectBev.NewDialled, ConnectBev.DelBev, ConnectBev.SetTimer;
  }

  lemma ConnectKeepsDecoder(s: Relay, connected: bool, named: string)
    ensures SameDecoder(s, AfterConnect(s, connected, named), s.recv)
  {
    hide ConnectBev.RecalculateKey, ConnectBev.DelBev;
  }

  lemma HandshakeKeepsDecoder(s: Relay, resp: string)
    ensures SameDecoder(s, AfterHandshake(s, resp), s.recv)
  {
    hide VerifyResponse, ConnectBev.DelBev;
  }

  lemma EventBetween(s: Relay, connected: bool, named: string)
    requires Suspended(s) && BetweenSessions(s.point)
    ensures SameDecoder(s, EventCb(s, connected, named), s.recv)
  {
    hide AfterConnect, Post;
    if s.pendingEvent {
      ConnectKeepsDecoder(Resumed(s.(pendingEvent := false), Connecting, BevEvent(connected)), connected, named);
    } else {
      PostBetween(s, BevEvent(connected));
    }
  }

  lemma ReadBetween(s: Relay, bytes: string)
    requires Suspended(s) && BetweenSessions(s.point)
    ensures SameDecoder(s, ReadCb(s, bytes), if s.point.Handshaking? then "" else s.recv + bytes)
  {
    hide AfterHandshake, Post;
    if s.pendingRead {
      HandshakeKeepsDecoder(Resumed(s.(recv := "", pendingRead := false), Handshaking, BevRead), s.recv + bytes);
    } else {
      PostBetween(s.(recv := s.recv + bytes), BevRead);
    }
  }

  lemma ReplyBetween(s: Relay, reply: CasterReply)
    requires Suspended(s) && BetweenSessions(s.point) && !Enters(s, Reply(reply))
    ensures SameDecoder(s, RegisterCb(s, reply), s.recv)
  {
    hide Loop, Post;
    if !s.pendingRegister {
      PostBetween(s, RegisterEvent(reply));
    }
  }

  lemma StopBetween(s: Relay)
    requires Suspended(s) && BetweenSessions(s.point)
    ensures SameDecoder(s, StopOutside(s), s.recv)
  {
    hide Loop;
  }

  lemma StepBetween(s: Relay, i: Input)
    requires Suspended(s) && BetweenSessions(s.point) && !Enters(s, i)
    ensures SameDecoder(s, Step(s, i),
                        if i.Read? && s.armed then (if s.point.Handshaking? then "" else s.recv + i.bytes) else s.recv)
  {
    hide Top, EventCb, ReadCb, RegisterCb, StopOutside;
    match i {
      case Fires(dial) =>
        if s.timers > 0 {
          TopKeepsDecoder(s.(timers := s.timers - 1, point := Active, retryDelay := Backoff(s.retryDelay)), dial);
        }
      case Event(connected, named) => EventBetween(s, connected, named);
      case Read(bytes) => ReadBetween(s, bytes);
      case Reply(reply) => ReplyBetween(s, reply);
      case Stop => StopBetween(s);
      case Neighbour(_) =>
    }
  }

  /** However long it takes to get from one session to the next, and whatever happens meanwhile: the size of
      an unfinished chunk stays, nothing is published, and the buffer is what the last session left and what
      has arrived since. */
  lemma {:induction false} LeftoversAreCarried(s: Relay, inputs: seq<Input>)
    requires Sound(s) && FreshInputs(s, inputs) && NoSession(s, inputs)
    ensures SameDecoder(s, After(s, inputs), Carried(s, inputs))
    decreases |inputs|
  {
    hide Step, Sound, SameDecoder;
    if |inputs| == 0 {
      SameToBegin(s);
    } else {
      var front, i := inputs[..|inputs| - 1], inputs[|inputs| - 1];
      LeftoversAreCarried(s, front);
      StaysSound(s, front);
      SoundIsSuspended(After(s, front));
      StepBetween(After(s, front), i);
      SameThen(s, After(s, front), Step(After(s, front), i), Carried(s, front), Carried(s, inputs));
    }
  }

  lemma SameToBegin(s: Relay)
    ensures SameDecoder(s, s, s.recv)
  {}

  lemma SameThen(s: Relay, t: Relay, u: Relay, before: string, recv: string)
    requires SameDecoder(s, t, before) && (t.recv == before ==> SameDecoder(t, u, recv))
    ensures SameDecoder(s, u, recv)
  {}

  lemma {:induction false} CarriedWithoutReads(s: Relay, inputs: seq<Input>)
    requires NoReads(inputs)
    ensures Carried(s, inputs) == s.recv
    decreases |inputs|
  {
    hide After;
    if |inputs| > 0 {
      CarriedWithoutReads(s, inputs[..|inputs| - 1]);
    }
  }

  /** The next handshake is read behind what the last session left: it is accepted exactly if both together
      are a reply that is accepted. */
  lemma HandshakeReadsLeftovers(s: Relay, inputs: seq<Input>, reply: string)
    requires Sound(s) && FreshInputs(s, inputs) && NoSession(s, inputs)
    requires var t := After(s, inputs); t.point.Handshaking? && t.armed
    ensures var u := Step(After(s, inputs), Read(reply));
            && u.recv == "" && u.chunkedSize == s.chunkedSize
            && u.point == if VerifyResponse(Carried(s, inputs) + reply).Accepted? then Registering else Asleep
    ensures NoReads(inputs) ==> Carried(s, inputs) == s.recv
  {
    hide Step, After, Sound, VerifyResponse, Carried;
    var t := After(s, inputs);
    LeftoversAreCarried(s, inputs);
    StaysSound(s, inputs);
    SoundIsSuspended(t);
    AnswerDecides(t, reply);
    if NoReads(inputs) {
      CarriedWithoutReads(s, inputs);
    }
  }

  lemma AnswerDecides(t: Relay, reply: string)
    requires Suspended(t) && t.point.Handshaking? && t.armed
    ensures var u := Step(t, Read(reply));
            && u.recv == "" && u.chunkedSize == t.chunkedSize && u.published == t.published
            && u.point == if VerifyResponse(t.recv + reply).Accepted? then Registering else Asleep
  {
    hide AfterHandshake, VerifyResponse;
    DataEndsHandshake(t, reply);
    var v := Resumed(t.(recv := "", pendingRead := false), Handshaking, BevRead);
    AfterHandshakeMoves(v, t.recv + reply);
    HandshakeKeepsDecoder(v, t.recv + reply);
  }

  /** The next session starts with the size that the last one left: its decoder expects a chunk head first
      exactly if that size is 0, and the reads that are queued by then are decoded accordingly. */
  lemma SessionInheritsSize(s: Relay, inputs: seq<Input>, n: nat)
    requires Sound(s) && FreshInputs(s, inputs) && NoSession(s, inputs) && After(s, inputs).point.Registering?
    requires n == ReadsUntil(After(s, inputs).events.queue, Disconnects)
    ensures var t, u := After(s, inputs), Step(After(s, inputs), Reply(CasterOk));
            var d := Drained(t.chunked, Carried(s, inputs), s.chunkedSize, n);
            u.recv == d.buf && u.chunkedSize == d.size && (n == 0 ==> u.chunkedSize == s.chunkedSize)
  {
    hide Step, After, Sound, Drained;
    var t := After(s, inputs);
    LeftoversAreCarried(s, inputs);
    StaysSound(s, inputs);
    StepsReply(t, CasterOk);
    RegistrationOutcome(t, n);
    DrainedNone(t.chunked, t.recv, t.chunkedSize);
  }

  lemma StepsReply(t: Relay, reply: CasterReply)
    requires t.point.Registering?
    ensures Step(t, Reply(reply)) == RegisterCb(t, reply)
  {
    hide RegisterCb;
  }

  /** A session that ends by losing its connection leaves the buffer and the size as they are. */
  lemma LeavingKeepsDecoder(s: Relay, i: Input)
    requires Sound(s) && s.point.Running? && Step(s, i).point.Asleep?
    ensures SameDecoder(s, Step(s, i), s.recv)
  {
    hide Owns, Loop, ReadCb;
    match i {
      case Fires(_) =>
      case Event(connected, _) => LeavesWith(s, BevEvent(connected));
      case Read(bytes) => RunningForwards(s, bytes);
      case Reply(reply) => LeavesWith(s, RegisterEvent(reply));
      case Stop => StopMoves(s);
      case Neighbour(_) =>
    }
  }

  lemma LeavesWith(s: Relay, e: CarrierEvent)
    requires Suspended(s) && s.point.Running? && !e.BevRead?
    ensures Post(s, e).point == if Disconnects(e) then Asleep else Running
    ensures SameDecoder(s, Post(s, e), s.recv)
  {
    hide Loop, Leave;
    var u := s.(events := Empty(), point := Active, log := Log(s.log.results, s.log.posted + [e]));
    PushWakes(s.events, e);
    assert Post(s, e) == Loop(u, Got(e));
    LoopTurn(u, e);
    LeaveEnds(u);
    LoopAtRest(u);
  }

  // ----- What the next session publishes -----

  /** The stream arrives in the pieces that end at the given cuts. */
  function Pieces(stream: string, cuts: seq<nat>): seq<Input>
    requires Increasing(cuts, |stream|)
  {
    if |cuts| == 0 then []
    else
      var front := cuts[..|cuts| - 1];
      Pieces(stream, front) + [Read(stream[LastCut(front)..LastCut(cuts)])]
  }

  /** The session goes on, and has published the data of exactly the chunks that have arrived as a whole. */
  predicate Publishes(s: Relay, payloads: seq<string>, cuts: seq<nat>)
    requires Increasing(cuts, |Stream(payloads)|)
  {
    var t := After(s, Pieces(Stream(payloads), cuts));
    t.point.Running? && t.published == s.published + Joined(payloads[..Whole(payloads, LastCut(cuts))])
  }

  /** A chunked session, and what its decoder has been through. */
  ghost predicate KeepsPace(s: Relay, published: string, t: Trace) {
    && Sound(s) && s.point.Running? && s.chunked
    && s.recv == t.buf && s.chunkedSize == t.size && s.published == published + Joined(t.outputs)
  }

  lemma PieceGoesOn(s: Relay, published: string, t: Trace, bytes: string)
    requires KeepsPace(s, published, t) && t.end.Waits? && Fed(t, bytes).end.Waits?
    ensures KeepsPace(Step(s, Read(bytes)), published, Fed(t, bytes))
  {
    hide Sound, Decode, ReadCb;
    RunningIsArmed(s);
    RunningForwards(s, bytes);
    StepIsSound(s, Read(bytes));
    StaysChunked(s, bytes);
    var out := Decode(t.buf + bytes, t.size).out;
    JoinedAppend(t.outputs, [out]);
    assert Joined([out]) == out + "" == out;
  }

  lemma RunningIsArmed(s: Relay)
    requires Sound(s) && s.point.Running?
    ensures Suspended(s) && s.armed
    ensures forall bytes :: Step(s, Read(bytes)) == ReadCb(s, bytes)
  {
    hide ReadCb, Owns;
  }

  lemma StaysChunked(s: Relay, bytes: string)
    requires Suspended(s) && s.point.Running?
    ensures ReadCb(s, bytes).chunked == s.chunked
  {
    hide Loop;
  }

  lemma AfterMore(s: Relay, inputs: seq<Input>, i: Input)
    ensures After(s, inputs + [i]) == Step(After(s, inputs), i)
  {
    hide Step;
    assert (inputs + [i])[..|inputs|] == inputs;
  }

  lemma {:induction false} SessionReceives(s: Relay, payloads: seq<string>, cuts: seq<nat>)
    requires KeepsPace(s, s.published, Trace([], "", 0, Waits))
    requires Sendable(payloads) && Increasing(cuts, |Stream(payloads)|) && AllHarmless(payloads, cuts)
    ensures KeepsPace(After(s, Pieces(Stream(payloads), cuts)), s.published, Receive(Stream(payloads), cuts))
    decreases |cuts|
  {
    hide Step, KeepsPace, Harmless, Fed, Stream, Rests, Restable;
    if |cuts| > 0 {
      var front := cuts[..|cuts| - 1];
      SessionReceives(s, payloads, front);
      FragmentsDecode(payloads, front);
      FragmentsDecode(payloads, cuts);
      var bytes := Stream(payloads)[LastCut(front)..LastCut(cuts)];
      AfterMore(s, Pieces(Stream(payloads), front), Read(bytes));
      PieceGoesOn(After(s, Pieces(Stream(payloads), front)), s.published, Receive(Stream(payloads), front), bytes);
    }
  }

  lemma AlignedPublishes(s: Relay, payloads: seq<string>, cuts: seq<nat>)
    requires Sound(s) && s.point.Running? && s.chunked && s.recv == "" && s.chunkedSize == 0
    requires Sendable(payloads) && Increasing(cuts, |Stream(payloads)|) && AllHarmless(payloads, cuts)
    ensures Publishes(s, payloads, cuts)
  {
    hide Sound, After, Harmless, Stream, Rests, Restable, Receive;
    assert s.published + "" == s.published;
    SessionReceives(s, payloads, cuts);
    FragmentsDecode(payloads, cuts);
  }

  // ----- A size that is carried over -----

  const ONE := "1\r\nx\r\n"

  lemma OneIsStream()
    ensures Stream(["x"]) == ONE && |ONE| == 6 && Whole(["x"], 6) == 1 && Joined(["x"][..1]) == "x"
    ensures Sendable(["x"]) && Increasing([6], 6) && AllHarmless(["x"], [6])
  {
    assert Hex(1) == "1";
    assert ChunkHead("x") == "1\r\n" && Chunk("x") == ONE;
    assert ["x"][1..] == [] && ["x"][..1] == ["x"] && [6][..0] == [];
    assert Stream(["x"]) == Chunk("x") + "";
    assert Joined(["x"]) == "x" + "";
    assert Clean([], 0) && Whole([], 0) == 0;
    assert Harmless(["x"], 0, 6);
  }

  /** Out of step, the decoder returns nothing of the chunk, or starts with its head. */
  lemma OneComesOutWrong(size: SizeT)
    requires size > 0
    ensures Decode(ONE, size).out != "x"
  {
    SizedDecode(ONE, size);
    if PlusTwo(size) <= |ONE| && !Wraps(size) {
      assert ONE[..size][0] == '1';
    }
  }

  lemma CarriedSizeSpoils(s: Relay)
    requires Sound(s) && s.point.Running? && s.chunked && s.recv == "" && s.chunkedSize > 0
    ensures Increasing([6], |Stream(["x"])|) && !Publishes(s, ["x"], [6])
  {
    hide Sound, Decode, Step, ReadCb, Stream;
    OneIsStream();
    OneComesOutWrong(s.chunkedSize);
    assert [6][..0] == [];
    assert ONE[0..6] == ONE && "" + ONE == ONE;
    AfterMore(s, [], Read(ONE));
    assert Pieces(ONE, []) == [] && Pieces(ONE, [6]) == [] + [Read(ONE)];
    RunningIsArmed(s);
    RunningForwards(s, ONE);
    var out := Decode(ONE, s.chunkedSize).out;
    assert (s.published + out)[|s.published|..] == out && (s.published + "x")[|s.published|..] == "x";
  }

  /** A chunked session publishes exactly its chunks, for every stream in harmless pieces, exactly if it
      starts between two chunks. */
  ghost predicate PublishesAll(s: Relay) {
    forall payloads: seq<string>, cuts: seq<nat> |
      Sendable(payloads) && Increasing(cuts, |Stream(payloads)|) && AllHarmless(payloads, cuts) ::
      Publishes(s, payloads, cuts)
  }

  lemma PublishesExactlyIfAligned(s: Relay)
    requires Sound(s) && s.point.Running? && s.chunked && s.recv == ""
    ensures PublishesAll(s) <==> s.chunkedSize == 0
  {
    hide Sound, Publishes, AllHarmless, Stream;
    if s.chunkedSize == 0 {
      forall payloads: seq<string>, cuts: seq<nat> |
        Sendable(payloads) && Increasing(cuts, |Stream(payloads)|) && AllHarmless(payloads, cuts)
        ensures Publishes(s, payloads, cuts)
      {
        AlignedPublishes(s, payloads, cuts);
      }
    } else {
      OneIsStream();
      CarriedSizeSpoils(s);
    }
  }

  /** From leaving one session to the next, over any number of attempts: if nothing arrives between the
      handshake and the start of the next chunked session, that publishes exactly its chunks, for every
      stream in harmless pieces, exactly if the last session ended between two chunks. */
  lemma NextSessionExactlyIfLeftAligned(s: Relay, leave: Input, inputs: seq<Input>)
    requires Sound(s) && s.point.Running? && FreshInput(s, leave) && Step(s, leave).point.Asleep?
    requires FreshInputs(Step(s, leave), inputs) && NoSession(Step(s, leave), inputs)
    requires var t := After(Step(s, leave), inputs);
             && t.point.Registering? && t.chunked && t.recv == "" && ReadsUntil(t.events.queue, Disconnects) == 0
             && Step(t, Reply(CasterOk)).point.Running?
    ensures PublishesAll(Step(After(Step(s, leave), inputs), Reply(CasterOk))) <==> s.chunkedSize == 0
  {
    hide Step, After, Sound, Drained, FreshInputs, NoSession, PublishesAll;
    StepIsSound(s, leave);
    LeavingKeepsDecoder(s, leave);
    var left := Step(s, leave);
    var t := After(left, inputs);
    SessionInheritsSize(left, inputs, 0);
    LeftoversAreCarried(left, inputs);
    DrainedNone(t.chunked, t.recv, s.chunkedSize);
    StaysSound(left, inputs);
    StepIsSound(t, Reply(CasterOk));
    StepsReply(t, CasterOk);
    AnswerKeepsCoding(t);
    PublishesExactlyIfAligned(Step(t, Reply(CasterOk)));
  }

  lemma AnswerKeepsCoding(t: Relay)
    requires Sound(t) && t.point.Registering?
    ensures RegisterCb(t, CasterOk).chunked == t.chunked
  {
    hide Owns, Loop;
  }

  // ----- A session that is lost in the middle of a chunk -----

  /** Asleep after losing a session or an attempt, with nothing queued. */
  predicate Resting(s: Relay, recv: string, size: SizeT, published: string) {
    && Suspended(s) && s.point.Asleep? && !s.stopped && s.events == Empty()
    && s.recv == recv && s.chunkedSize == size && s.published == published
  }

  /** The relay has a connection and waits for the answer to its request. */
  predicate Asking(s: Relay, recv: string, size: SizeT, published: string) {
    && Suspended(s) && s.point.Handshaking? && s.armed && !s.stopped && s.events == Empty()
    && s.recv == recv && s.chunkedSize == size && s.published == published
  }

  lemma Loses(s: Relay, named: string)
    requires Suspended(s) && s.point.Running? && s.armed && !s.stopped
    ensures Resting(Step(s, Event(false, named)), s.recv, s.chunkedSize, s.published)
  {
    hide Loop;
    var u := s.(events := Empty(), point := Active, log := Log(s.log.results, s.log.posted + [BevEvent(false)]));
    PushWakes(s.events, BevEvent(false));
    LoopTurn(u, BevEvent(false));
    assert Step(s, Event(false, named)) == Leave(u);
  }

  lemma Redials(s: Relay, recv: string, size: SizeT, published: string, key: string, b: ConnectBev.Bev, named: string)
    requires Resting(s, recv, size, published) && key != ""
    ensures Asking(Step(Step(s, Fires(ConnectBev.Dialled(key, b))), Event(true, named)), recv, size, published)
  {
    hide ConnectBev.RecalculateKey, ConnectBev.Insert, ConnectBev.GetBev, ConnectBev.SetTimer;
    var t := Step(s, Fires(ConnectBev.Dialled(key, b)));
    assert t.point.Connecting? && t.pendingEvent && t.armed && Suspended(t);
  }

  lemma Refuses(s: Relay, recv: string, size: SizeT, published: string, reply: string)
    requires Asking(s, recv, size, published) && VerifyResponse(recv + reply).Refused?
    ensures Resting(Step(s, Read(reply)), "", size, published)
  {
    hide VerifyResponse, ConnectBev.DelBev;
    assert s.recv + reply == recv + reply;
  }

  lemma AcceptedEnters(s: Relay, size: SizeT, published: string, reply: string)
    requires Asking(s, "", size, published) && VerifyResponse(reply) == Accepted(true, true)
    ensures var t := Step(Step(s, Read(reply)), Reply(CasterOk));
            && Suspended(t) && t.point.Running? && t.chunked && t.armed && !t.stopped
            && t.recv == "" && t.chunkedSize == size && t.published == published
  {
    hide VerifyResponse, ConnectBev.SetTimer, Loop;
    NothingIsRefused();
    var t := Step(s, Read(reply));
    assert s.recv + reply == reply;
    assert t.point.Registering? && t.chunked && t.events == Empty() && t.pendingRegister && t.recv == "";
    var u := StartBev(Resumed(t.(pendingRegister := false), Registering, RegisterEvent(CasterOk)).(
               retryDelay := FIRST_DELAY, sleeps := []));
    LoopAtRest(u);
    EmptyLoopWaits(u);
  }

  lemma EmptyLoopWaits(u: Relay)
    requires u.events == Empty() && u.point.Active?
    ensures var (c, wake) := Next(u.events); Loop(u.(events := c), wake) == u.(events := c, point := Running)
    ensures Next(Empty<CarrierEvent>()) == (Chan([], true, false), NoWake)
  {}

  lemma StartsWithH(recv: string, reply: string)
    requires recv == "he"
    ensures VerifyResponse(recv + reply).Refused?
  {
    assert (recv + reply)[0] == 'h';
  }

  lemma OutOfStepText()
    ensures Decode("3\r\nabc\r\n", 5) == Decoded("3\r\nab", "", 0, Waits)
  {
    var buf := "3\r\nabc\r\n";
    BodyIsPiece(buf, 5, "3\r\nab", "c\r", "\n");
    assert buf == "3\r\nab" + ("c\r" + "\n");
    SizedDecode(buf, 5);
    LoneLf("");
    assert "\n" + "" == "\n";
    assert "3\r\nab" + "" == "3\r\nab";
  }

  lemma BeginsAsking(c: ConnectBev.Conns, key: string, b: ConnectBev.Bev)
    requires key != ""
    ensures Asking(Step(Top(Created(c), ConnectBev.Dialled(key, b)), Event(true, "")), "", 0, "")
  {
    hide ConnectBev.GetBev, ConnectBev.SetTimer, ConnectBev.Insert;
  }

  lemma FiveAnnounced()
    ensures Decode("5\r\nhe", 0) == Decoded("", "he", 5, Waits)
  {
    assert Hex(5) == "5";
    ScanPrintedSize(5);
    ReadPrintedLine("5", "he");
    assert "5" + "\r\n" + "he" == "5\r\nhe";
  }

  lemma FourInputs(s: Relay, i: Input, j: Input, k: Input, l: Input)
    ensures After(s, [i, j, k, l]) == Step(Step(Step(Step(s, i), j), k), l)
    ensures FreshInputs(s, [i, j, k, l]) <==> FreshInputs(s, [i, j, k]) && FreshInput(After(s, [i, j, k]), l)
  {
    hide Step, FreshInput;
    assert [i, j, k, l][..3] == [i, j, k];
    ThreeInputs(s, i, j, k);
  }

  /** Such a state is reached: the first session announces five bytes and sends two of them. */
  lemma MidChunkIsReached(c: ConnectBev.Conns, key: string, b: ConnectBev.Bev, reply: string)
    requires Healthy(c) && FreshDial(c, ConnectBev.Dialled(key, b)) && VerifyResponse(reply) == Accepted(true, true)
    ensures var dial, inputs := ConnectBev.Dialled(key, b), [Event(true, ""), Read(reply), Reply(CasterOk), Read("5\r\nhe")];
            var s := Run(c, dial, inputs);
            && FreshInputs(Top(Created(c), dial), inputs)
            && Suspended(s) && s.point.Running? && s.armed && !s.stopped && s.chunked
            && s.recv == "he" && s.chunkedSize == 5 && s.published == ""
  {
    hide Top, Step, VerifyResponse, ReadCb, Decode, Sound, Healthy;
    var dial := ConnectBev.Dialled(key, b);
    var start := Top(Created(c), dial);
    var bytes := "5\r\nhe";
    BeginsAsking(c, key, b);
    var asking := Step(start, Event(true, ""));
    AcceptedEnters(asking, 0, "", reply);
    var running := Step(Step(asking, Read(reply)), Reply(CasterOk));
    ThreeInputs(start, Event(true, ""), Read(reply), Reply(CasterOk));
    FourInputs(start, Event(true, ""), Read(reply), Reply(CasterOk), Read(bytes));
    StartIsSound(c, dial);
    StaysSound(start, [Event(true, ""), Read(reply), Reply(CasterOk)]);
    RunningIsArmed(running);
    FiveAnnounced();
    assert "" + bytes == bytes && "" + "" == "";
    RunningForwards(running, bytes);
    StaysChunked(running, bytes);
    StepIsSound(running, Read(bytes));
    RunningIsArmed(Step(running, Read(bytes)));
    RunsUnstopped(Step(running, Read(bytes)));
  }

  lemma RunsUnstopped(s: Relay)
    requires Sound(s) && s.point.Running?
    ensures !s.stopped
  {}

  /** A chunked session announces five bytes, sends "he", and is lost. The next attempt fails whatever the
      other side answers, because "he" comes first. The attempt after it succeeds, and the first chunk of the
      new session is published as it was sent, head and all, because its decoder still waits for five bytes. */
  lemma MidChunkDisconnect(s: Relay, key: string, b: ConnectBev.Bev, key': string, b': ConnectBev.Bev,
                           reply: string, reply': string, named: string)
    requires Suspended(s) && s.point.Running? && s.armed && !s.stopped && s.chunked
    requires s.recv == "he" && s.chunkedSize == 5
    requires key != "" && key' != "" && VerifyResponse(reply') == Accepted(true, true)
    ensures var asleep := Step(s, Event(false, named));
            var refused := Step(Step(Step(asleep, Fires(ConnectBev.Dialled(key, b))), Event(true, named)), Read(reply));
            var asking := Step(Step(refused, Fires(ConnectBev.Dialled(key', b'))), Event(true, named));
            var running := Step(Step(asking, Read(reply')), Reply(CasterOk));
            && refused.point.Asleep? && running.point.Running? && running.chunkedSize == 5
            && ReadCb(running, "3\r\nabc\r\n").published == s.published + "3\r\nab"
  {
    hide Step, ReadCb, Decode, VerifyResponse, Suspended;
    var asleep := Step(s, Event(false, named));
    Loses(s, named);
    Redials(asleep, "he", 5, s.published, key, b, named);
    var asked := Step(Step(asleep, Fires(ConnectBev.Dialled(key, b))), Event(true, named));
    StartsWithH("he", reply);
    Refuses(asked, "he", 5, s.published, reply);
    var refused := Step(asked, Read(reply));
    Redials(refused, "", 5, s.published, key', b', named);
    var asking := Step(Step(refused, Fires(ConnectBev.Dialled(key', b'))), Event(true, named));
    AcceptedEnters(asking, 5, s.published, reply');
    var running := Step(Step(asking, Read(reply')), Reply(CasterOk));
    OutOfStepText();
    RunningForwards(running, "3\r\nabc\r\n");
    assert "" + "3\r\nabc\r\n" == "3\r\nabc\r\n";
  }
}
