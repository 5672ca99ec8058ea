/** A base station that uploads a chunked stream: the chunk decoder inside the running coroutine. */
module ChunkedUpload {
  import opened Carrier
  import opened Channel
  import opened ChunkCodec
  import opened ChunkStream
  import opened ServerNtrip

  const LOGIN := [Callback(AuthEvent(AuthOk)), Callback(RegisterEvent(CasterOk))]

  /** A station that has logged in, and what happens then. */
  function Session(inputs: seq<Input>): Server {
    After(Run(true, LOGIN), inputs)
  }

  /** Data arrives, or something else happens that does not end the session. */
  predicate Quiet(i: Input) {
    match i
    case Read(bytes) => |bytes| > 0
    case Callback(e) => !Ends(e) && !e.BevRead?
    case Stop => false
  }

  /** Every piece that arrives is a harmless delivery of the stream. */
  predicate HarmlessReads(payloads: seq<string>, inputs: seq<Input>) {
    |inputs| > 0 ==>
      var front, i := inputs[..|inputs| - 1], inputs[|inputs| - 1];
      && HarmlessReads(payloads, front)
      && (i.Read? ==> Harmless(payloads, |Received(front)|, |Received(front)| + |i.bytes|))
  }

  /** The coroutine waits for data, the decoder rests at the cut, and the chunks before it have been
      published. */
  predicate Uploading(s: Server, payloads: seq<string>, c: nat)
    requires Sendable(payloads)
  {
    && s.chunked && s.point.Running? && Suspended(s) && s.destroys == 0
    && c <= |Stream(payloads)| && Restable(payloads, c)
    && Rest(s.recv, s.chunkedSize) == Resting(payloads, c)
    && s.published == Joined(payloads[..Whole(payloads, c)])
  }

  /** One read event at a waiting coroutine is one call of the decoder. */
  lemma ReadDecodes(s: Server, bytes: string)
    requires s.chunked && s.point.Running? && Suspended(s) && s.destroys == 0
    ensures var t, d := ReadCb(s, bytes), Decode(s.recv + bytes, s.chunkedSize);
            && t.chunked && t.recv == d.buf && t.chunkedSize == d.size && t.published == s.published + d.out
            && match d.end
               case Waits => t.point.Running? && Suspended(t) && t.destroys == 0
               case Stops => t.point.Finished? && t.destroys == 1
               case Throws => t.point.Crashed?
  {
    hide Decode;
    var r := s.(recv := s.recv + bytes, received := s.received + bytes);
    var u := r.(point := Active, events := Empty());
    PushWakes(r.events, BevRead);
    assert ReadCb(s, bytes) == Loop(u, Got(BevRead));
    LoopTurn(u, BevRead);
    var t := React(u.(got := u.got + [BevRead]), BevRead);
    assert t == Publish(u.(got := u.got + [BevRead]));
  }

  lemma QuietKeeps(s: Server, e: CarrierEvent)
    requires s.point.Running? && Suspended(s) && Quiet(Callback(e))
    ensures StepAlive(s, Callback(e)) == s.(got := s.got + [e])
  {
    hide Decode, Publish;
    var u := s.(point := Active, events := Empty());
    PushWakes(s.events, e);
    assert StepAlive(s, Callback(e)) == Loop(u, Got(e));
    LoopTurn(u, e);
  }

  lemma AfterOneMore(s: Server, inputs: seq<Input>, i: Input)
    ensures After(s, inputs + [i]) == Step(After(s, inputs), i)
  {
    hide StepAlive;
    assert (inputs + [i])[..|inputs|] == inputs;
  }

  lemma SessionGoesOn(inputs: seq<Input>, i: Input)
    ensures Session(inputs + [i]) == Step(Session(inputs), i)
  {
    hide Step, Run;
    AfterOneMore(Run(true, LOGIN), inputs, i);
  }

  lemma LoginUploads(payloads: seq<string>)
    requires Sendable(payloads)
    ensures Uploading(Session([]), payloads, 0)
  {
    hide Stream;
    var s := AuthCb(Started(true), AuthOk);
    AfterOneMore(Started(true), [], LOGIN[0]);
    AfterOneMore(Started(true), [LOGIN[0]], LOGIN[1]);
    assert LOGIN == [LOGIN[0]] + [LOGIN[1]] && [LOGIN[0]] == [] + [LOGIN[0]];
    assert Run(true, LOGIN) == RegisterCb(s, CasterOk);
    NothingReceived(payloads);
    assert payloads[..0] == [];
  }

  /** What one piece of the stream does. */
  lemma ReadUploads(s: Server, payloads: seq<string>, c: nat, bytes: string)
    requires Sendable(payloads) && Uploading(s, payloads, c) && |bytes| > 0
    requires c + |bytes| <= |Stream(payloads)| && bytes == Stream(payloads)[c..c + |bytes|]
    ensures Harmless(payloads, c, c + |bytes|) ==> Uploading(ReadCb(s, bytes), payloads, c + |bytes|)
    ensures !Harmless(payloads, c, c + |bytes|) && !Eats(payloads, c, c + |bytes|) ==>
              ReadCb(s, bytes).point.Finished? && ReadCb(s, bytes).destroys == 1
  {
    hide Decode, Stream, Harmless, Eats, Restable, ReadCb;
    var c' := c + |bytes|;
    ReadDecodes(s, bytes);
    assert Delivered(payloads, c, c') == Decode(s.recv + bytes, s.chunkedSize);
    if Harmless(payloads, c, c') {
      HarmlessIsExact(payloads, c, c');
      HarmlessEndsRestable(payloads, c, c');
      var i, j := Whole(payloads, c), Whole(payloads, c');
      JoinedAppend(payloads[..i], payloads[i..j]);
      assert payloads[..j] == payloads[..i] + payloads[i..j];
    } else if !Eats(payloads, c, c') {
      HarmfulStopsOrEats(payloads, c, c');
    }
  }

  lemma CallbackUploads(s: Server, payloads: seq<string>, c: nat, e: CarrierEvent)
    requires Sendable(payloads) && Uploading(s, payloads, c) && Quiet(Callback(e))
    ensures Uploading(Step(s, Callback(e)), payloads, c)
  {
    hide StepAlive, Stream, Restable;
    QuietKeeps(s, e);
  }

  lemma StepReads(s: Server, payloads: seq<string>, c: nat, bytes: string)
    requires Sendable(payloads) && Uploading(s, payloads, c)
    ensures Step(s, Read(bytes)) == ReadCb(s, bytes)
  {
    hide ReadCb, Stream, Restable, Resting;
  }

  /** The piece goes on where the stream has arrived. */
  predicate GoesOn(stream: string, before: string, bytes: string) {
    |bytes| > 0 && before <= stream && before + bytes <= stream
  }

  lemma PieceOf(stream: string, before: string, bytes: string)
    requires GoesOn(stream, before, bytes)
    ensures |bytes| > 0 && |before| + |bytes| <= |stream| && bytes == stream[|before|..|before| + |bytes|]
  {
    assert bytes == (before + bytes)[|before|..];
  }

  lemma Arrived(stream: string, before: string, bytes: string)
    requires GoesOn(stream, before, bytes)
    ensures before <= stream
  {}

  lemma PieceUploads(s: Server, payloads: seq<string>, before: string, bytes: string)
    requires Sendable(payloads) && Uploading(s, payloads, |before|) && GoesOn(Stream(payloads), before, bytes)
    requires Harmless(payloads, |before|, |before| + |bytes|)
    ensures Uploading(Step(s, Read(bytes)), payloads, |before| + |bytes|)
  {
    hide Stream, Harmless, Eats, Uploading, Step, ReadCb, GoesOn;
    PieceOf(Stream(payloads), before, bytes);
    ReadUploads(s, payloads, |before|, bytes);
    StepReads(s, payloads, |before|, bytes);
  }

  lemma Gathers(stream: string, before: string, bytes: string, after: string)
    requires after == before + bytes && after <= stream
    ensures before <= stream && (|bytes| > 0 ==> GoesOn(stream, before, bytes))
  {}

  /** What the last input adds to the bytes received. */
  lemma ReceivedLast(inputs: seq<Input>, front: seq<Input>, i: Input)
    requires |inputs| > 0 && front == inputs[..|inputs| - 1] && i == inputs[|inputs| - 1]
    ensures Received(inputs) == Received(front) + if i.Read? then i.bytes else ""
  {}

  /** A base station logs in and uploads a chunked stream in harmless pieces, with any quiet events in
      between: it stays connected, and at every moment exactly the chunks that have arrived as a whole have
      been published. */
  lemma {:induction false} UploadPublishesWholeChunks(payloads: seq<string>, inputs: seq<Input>)
    requires Sendable(payloads) && (forall k | 0 <= k < |inputs| :: Quiet(inputs[k]))
    requires Received(inputs) <= Stream(payloads) && HarmlessReads(payloads, inputs)
    ensures Uploading(Session(inputs), payloads, |Received(inputs)|)
    decreases |inputs|
  {
    hide Stream, Harmless, Uploading, Step, Session, Received, GoesOn;
    if |inputs| == 0 {
      LoginUploads(payloads);
      assert inputs == [];
      NothingYet();
    } else {
      var front, i := inputs[..|inputs| - 1], inputs[|inputs| - 1];
      ReceivedLast(inputs, front, i);
      Gathers(Stream(payloads), Received(front), if i.Read? then i.bytes else "", Received(inputs));
      UploadPublishesWholeChunks(payloads, front);
      assert Quiet(i) && inputs == front + [i];
      SessionGoesOn(front, i);
      match i {
        case Read(bytes) => PieceUploads(Session(front), payloads, Received(front), bytes);
        case Callback(e) => CallbackUploads(Session(front), payloads, |Received(front)|, e);
      }
    }
  }

  lemma NothingYet()
    ensures Received([]) == ""
  {}

  lemma EndsOnBadCut(s: Server, payloads: seq<string>, before: string, bytes: string)
    requires Sendable(payloads) && Uploading(s, payloads, |before|) && GoesOn(Stream(payloads), before, bytes)
    requires !Harmless(payloads, |before|, |before| + |bytes|) && !Eats(payloads, |before|, |before| + |bytes|)
    ensures Step(s, Read(bytes)).point.Finished? && Step(s, Read(bytes)).destroys == 1
  {
    hide Stream, Harmless, Eats, Uploading, Step, ReadCb, GoesOn;
    PieceOf(Stream(payloads), before, bytes);
    ReadUploads(s, payloads, |before|, bytes);
    StepReads(s, payloads, |before|, bytes);
  }

  /** The first piece that is not harmless ends the session, unless it eats: then the session goes on out of
      step. */
  lemma BadCutEndsSession(payloads: seq<string>, inputs: seq<Input>, bytes: string)
    requires Sendable(payloads) && (forall k | 0 <= k < |inputs| :: Quiet(inputs[k]))
    requires HarmlessReads(payloads, inputs) && GoesOn(Stream(payloads), Received(inputs), bytes)
    requires var c := |Received(inputs)|; !Harmless(payloads, c, c + |bytes|) && !Eats(payloads, c, c + |bytes|)
    ensures var s := Session(inputs + [Read(bytes)]);
            s.point.Finished? && s.destroys == 1
  {
    hide Stream, Harmless, Eats, Uploading, Step, Quiet, Session, Received, HarmlessReads, Sendable, GoesOn;
    Arrived(Stream(payloads), Received(inputs), bytes);
    UploadPublishesWholeChunks(payloads, inputs);
    EndsOnBadCut(Session(inputs), payloads, Received(inputs), bytes);
    SessionGoesOn(inputs, Read(bytes));
  }

  /** A station between two chunks sends the largest head and one byte more: the program ends. */
  lemma HugeHeadEndsProgram(s: Server, x: char)
    requires s.chunked && s.point.Running? && Suspended(s) && s.destroys == 0
    requires s.recv == "" && s.chunkedSize == 0
    ensures ReadCb(s, seq(16, _ => 'f') + "\r\n" + [x]).point.Crashed?
  {
    hide Decode, ReadCb;
    var bytes := seq(16, _ => 'f') + "\r\n" + [x];
    HugeHeadThrows(x);
    assert "" + bytes == bytes;
    ReadDecodes(s, bytes);
  }
}
