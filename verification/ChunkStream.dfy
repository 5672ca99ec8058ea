/** The chunk decoder fed piece by piece: which deliveries are harmless, what has come out after every
    delivery, and when the decoder gives up. */
module ChunkStream {
  import opened ChunkCodec
  import opened EvBuffer
  import opened Sequences

  // ----- Positions in a stream -----

  /** The position is not strictly inside a chunk head. */
  predicate Clean(payloads: seq<string>, c: nat) {
    if |payloads| == 0 then c == 0
    else if c < |Chunk(payloads[0])| then c == 0 || c >= |ChunkHead(payloads[0])|
    else Clean(payloads[1..], c - |Chunk(payloads[0])|)
  }

  /** The number of chunks that lie wholly before the position. */
  function Whole(payloads: seq<string>, c: nat): (n: nat)
    ensures n <= |payloads|
  {
    if |payloads| == 0 || c < |Chunk(payloads[0])| then 0
    else 1 + Whole(payloads[1..], c - |Chunk(payloads[0])|)
  }

  predicate NoEmptyPayload(payloads: seq<string>) {
    forall i | 0 <= i < |payloads| :: |payloads[i]| > 0
  }

  datatype Rest = Rest(buf: string, size: SizeT)

  /** What the decoder holds between deliveries: nothing before a head, and after a head the part of the
      chunk that has arrived together with its announced size. Behind the head of an empty chunk the size
      is 0, which also means that no head has been read. From there the decoder can come to rest inside
      the next head: it then holds its first byte, or, if the next chunk is empty too, it has dropped its
      first two. */
  function Resting(payloads: seq<string>, c: nat): Rest
    requires Sendable(payloads) && c <= |Stream(payloads)|
  {
    if |payloads| == 0 || c == 0 then Rest("", 0)
    else if c >= |Chunk(payloads[0])| then Resting(payloads[1..], c - |Chunk(payloads[0])|)
    else if c >= |ChunkHead(payloads[0])| then Rest(Stream(payloads)[|ChunkHead(payloads[0])|..c], |payloads[0]|)
    else if c == 1 then Rest(Stream(payloads)[..1], 0)
    else Rest("", 0)
  }

  /** Behind the head of an empty chunk, before its end. */
  predicate InEmpty(p: string, c: nat) {
    p == "" && |ChunkHead(p)| <= c < |Chunk(p)|
  }

  /** The other positions in a chunk at which the decoder can rest. */
  predicate Settled(p: string, c: nat) {
    c <= 1 || (p == "" && c == 2) || (p != "" && c >= |ChunkHead(p)|)
  }

  /** A delivery that starts behind the head of an empty chunk and ends `n` bytes past its end. The decoder
      takes the chunk's line end for a head and drops two bytes more. If these belong to another empty
      chunk, what is left of it is taken for a head and dropped as well, and nothing is lost. */
  predicate FromEmpty(payloads: seq<string>, n: nat) {
    n == 0 || (|payloads| > 0 && (n == 1 || (payloads[0] == "" && (n == 2 || Clean(payloads, n)))))
  }

  /** The delivery of the bytes from `c` to `c'` neither ends where the decoder gives up nor makes it drop
      bytes of a chunk that carries data. */
  predicate Harmless(payloads: seq<string>, c: nat, c': nat) {
    if |payloads| == 0 then false
    else
      var p, e := payloads[0], |Chunk(payloads[0])|;
      if c >= e then c' >= e && Harmless(payloads[1..], c - e, c' - e)
      else if InEmpty(p, c) then c' >= e && FromEmpty(payloads[1..], c' - e)
      else Settled(p, c) && if c' < e then c' >= |ChunkHead(p)| else Clean(payloads[1..], c' - e)
  }

  // ----- One delivery -----

  /** The decoder's call after the bytes from `c` to `c'` have arrived. */
  function Delivered(payloads: seq<string>, c: nat, c': nat): Decoded
    requires Sendable(payloads) && c <= c' <= |Stream(payloads)|
  {
    var rest := Resting(payloads, c);
    Decode(rest.buf + Stream(payloads)[c..c'], rest.size)
  }

  /** The call did what it should: it returned the chunks that became whole, and rests at the cut. */
  predicate Exact(payloads: seq<string>, c: nat, c': nat, r: Decoded)
    requires Sendable(payloads) && c' <= |Stream(payloads)|
  {
    && Whole(payloads, c) <= Whole(payloads, c')
    && r == Decoded(Joined(payloads[Whole(payloads, c)..Whole(payloads, c')]),
                    Resting(payloads, c').buf, Resting(payloads, c').size, Waits)
  }

  lemma StreamSplits(payloads: seq<string>)
    requires |payloads| > 0
    ensures var p, rest := payloads[0], Stream(payloads[1..]);
            Stream(payloads) == ChunkHead(p) + (p + "\r\n" + rest)
            && |Chunk(p)| == |ChunkHead(p)| + |p| + 2
            && |Stream(payloads)| == |Chunk(p)| + |rest|
  {}

  lemma EmptyChunkIsFive()
    ensures ChunkHead("") == "0\r\n" && |Chunk("")| == 5
  {
    assert Hex(0) == "0";
  }

  lemma SendableTail(payloads: seq<string>)
    requires Sendable(payloads) && |payloads| > 0
    ensures Sendable(payloads[1..]) && |payloads[0]| < SIZE_T - 2
  {
    forall i | 0 <= i < |payloads[1..]|
      ensures |payloads[1..][i]| < SIZE_T - 2
    {
      assert payloads[1..][i] == payloads[i + 1];
    }
  }

  // ----- Decoding from the start of a chunk -----

  /** Once the head has been read, only the bytes after it matter. */
  lemma StartAfterHead(payloads: seq<string>, n: nat)
    requires Sendable(payloads) && |payloads| > 0 && |ChunkHead(payloads[0])| <= n <= |Stream(payloads)|
    ensures Decode(Stream(payloads)[..n], 0) == DecodeBody(Stream(payloads)[|ChunkHead(payloads[0])|..n], |payloads[0]|)
  {
    hide Decode, DecodeBody;
    var p, stream, h := payloads[0], Stream(payloads), |ChunkHead(payloads[0])|;
    StreamSplits(payloads);
    assert stream[..n] == ChunkHead(p) + stream[h..n];
    HeadIsLine(p, stream[h..n]);
  }

  lemma StartIntoChunk(payloads: seq<string>, n: nat)
    requires Sendable(payloads) && |payloads| > 0
    requires |ChunkHead(payloads[0])| <= n < |Chunk(payloads[0])| && n <= |Stream(payloads)|
    ensures Decode(Stream(payloads)[..n], 0) == Decoded("", Stream(payloads)[|ChunkHead(payloads[0])|..n], |payloads[0]|, Waits)
  {
    StreamSplits(payloads);
    StartAfterHead(payloads, n);
  }

  lemma SliceBehind(head: string, data: string, rest: string, n: nat)
    requires |head| + |data| + 2 <= n <= |head| + |data| + 2 + |rest|
    ensures (head + (data + "\r\n" + rest))[|head|..n] == data + "\r\n" + rest[..n - |head| - |data| - 2]
  {}

  lemma StartPastChunk(payloads: seq<string>, n: nat, tail: string)
    requires Sendable(payloads) && |payloads| > 0
    requires |Chunk(payloads[0])| <= n <= |Stream(payloads)|
    requires n - |Chunk(payloads[0])| <= |Stream(payloads[1..])|
    requires tail == Stream(payloads[1..])[..n - |Chunk(payloads[0])|]
    ensures Decode(Stream(payloads)[..n], 0) == Behind(payloads[0], tail)
  {
    var p := payloads[0];
    StreamSplits(payloads);
    StartAfterHead(payloads, n);
    SliceBehind(ChunkHead(p), p, Stream(payloads[1..]), n);
    BodyIsData(p, tail);
  }

  lemma JoinedFirst(payloads: seq<string>, n: nat)
    requires n < |payloads|
    ensures Joined(payloads[0..n + 1]) == payloads[0] + Joined(payloads[1..][0..n])
  {
    assert payloads[0..n + 1][1..] == payloads[1..][0..n];
  }

  /** Completing the first chunk and being exact afterwards is exact for the whole stream. */
  lemma ExactPast(payloads: seq<string>, tail: seq<string>, c: nat, c': nat, n: nat, r: Decoded)
    requires Sendable(payloads) && |payloads| > 0 && tail == payloads[1..] && Sendable(tail)
    requires c < |Chunk(payloads[0])| <= c' <= |Stream(payloads)| && n == c' - |Chunk(payloads[0])| <= |Stream(tail)|
    requires Exact(tail, 0, n, r)
    ensures Exact(payloads, c, c', r.(out := payloads[0] + r.out))
  {
    JoinedFirst(payloads, Whole(tail, n));
    assert Whole(tail, 0) == 0;
  }

  lemma NothingIsExact(tail: seq<string>)
    requires Sendable(tail)
    ensures Exact(tail, 0, 0, Decoded("", "", 0, Waits))
  {
    assert tail[0..0] == [];
  }

  /** From the start of a chunk, a delivery that does not end strictly inside a head does exactly what it
      should. */
  lemma {:induction false} StartIsExact(payloads: seq<string>, n: nat)
    requires Sendable(payloads) && Clean(payloads, n) && 0 < n <= |Stream(payloads)|
    ensures Exact(payloads, 0, n, Decode(Stream(payloads)[..n], 0))
    decreases |payloads|
  {
    hide Decode, DecodeBody, Stream;
    StreamSplits(payloads);
    SendableTail(payloads);
    var tail, e := payloads[1..], |Chunk(payloads[0])|;
    if n < e {
      StartIntoChunk(payloads, n);
      assert payloads[0..0] == [];
    } else {
      StartPastChunk(payloads, n, Stream(tail)[..n - e]);
      if n > e {
        StartIsExact(tail, n - e);
        ExactPast(payloads, tail, 0, n, n - e, Decode(Stream(tail)[..n - e], 0));
      } else {
        NothingIsExact(tail);
        ExactPast(payloads, tail, 0, n, 0, Decoded("", "", 0, Waits));
        assert payloads[0] + "" == payloads[0];
      }
    }
  }

  /** A head that is not complete holds no line feed. */
  lemma PartialHeadStops(payloads: seq<string>, n: nat)
    requires Sendable(payloads) && |payloads| > 0 && 0 < n < |ChunkHead(payloads[0])|
    ensures n <= |Stream(payloads)| && Decode(Stream(payloads)[..n], 0).end.Stops?
  {
    hide DecodeBody;
    var p := payloads[0];
    StreamSplits(payloads);
    ScanPrintedSize(|p|);
    assert Stream(payloads)[..n] == (Hex(|p|) + "\r")[..n];
    NoLineFeedNoLine(Stream(payloads)[..n]);
  }

  /** From the start of a chunk, a delivery that ends strictly inside a head makes the decoder stop. */
  lemma {:induction false} StartStops(payloads: seq<string>, n: nat)
    requires Sendable(payloads) && !Clean(payloads, n) && n <= |Stream(payloads)|
    ensures Decode(Stream(payloads)[..n], 0).end.Stops?
    decreases |payloads|
  {
    hide Decode, DecodeBody;
    if |payloads| > 0 {
      StreamSplits(payloads);
      SendableTail(payloads);
      var tail, e := payloads[1..], |Chunk(payloads[0])|;
      if n < e {
        PartialHeadStops(payloads, n);
      } else {
        StartStops(tail, n - e);
        StartPastChunk(payloads, n, Stream(tail)[..n - e]);
      }
    }
  }

  // ----- Decoding from a position inside a chunk -----

  lemma EmptyHead(rest: string)
    ensures Decode("\r\n" + rest, 0) == DecodeBody(rest, 0)
  {
    ReadPrintedLine("", rest);
    assert "" + "\r\n" + rest == "\r\n" + rest;
    assert HeadSize("") == 0;
  }

  lemma LoneLf(rest: string)
    ensures Decode("\n" + rest, 0) == DecodeBody(rest, 0)
  {
    FindCharUnique("\n" + rest, '\n', 0);
    assert ("\n" + rest)[1..] == rest && ("\n" + rest)[..0] == "";
    assert HeadSize("") == 0;
  }

  lemma EmptyBody(buf: string)
    requires |buf| >= 2
    ensures DecodeBody(buf, 0) == if |buf| == 2 then Decoded("", "", 0, Waits) else Decode(buf[2..], 0)
  {
    var next := Decode(buf[2..], 0);
    assert buf[..0] == "" && "" + next.out == next.out;
  }

  /** Where the decoder has dropped the first two bytes of an empty chunk, it goes on as if it had not. */
  lemma DroppedIsNoLoss(payloads: seq<string>, n: nat)
    requires Sendable(payloads) && |payloads| > 0 && payloads[0] == "" && 3 <= n <= |Stream(payloads)|
    ensures Decode(Stream(payloads)[2..n], 0) == Decode(Stream(payloads)[..n], 0)
  {
    hide Decode, DecodeBody;
    var stream := Stream(payloads);
    EmptyChunkIsFive();
    StreamSplits(payloads);
    StartAfterHead(payloads, n);
    assert stream[2] == "0\r\n"[2] == '\n';
    assert stream[2..n] == "\n" + stream[3..n];
    LoneLf(stream[3..n]);
  }

  lemma RestingHere(payloads: seq<string>, c: nat)
    requires Sendable(payloads) && |payloads| > 0 && c < |Chunk(payloads[0])| && c <= |Stream(payloads)|
    ensures var p, h := payloads[0], |ChunkHead(payloads[0])|;
            Resting(payloads, c) == if c >= h then Rest(Stream(payloads)[h..c], |p|)
                                    else if c == 1 then Rest(Stream(payloads)[..1], 0) else Rest("", 0)
  {}

  lemma GoesOnInHead(payloads: seq<string>, c: nat, c': nat)
    requires Sendable(payloads) && |payloads| > 0 && c <= 1 < |ChunkHead(payloads[0])|
    requires c < c' <= |Stream(payloads)|
    ensures Delivered(payloads, c, c') == Decode(Stream(payloads)[..c'], 0)
  {
    var stream := Stream(payloads);
    RestingHere(payloads, c);
    assert "" + stream[0..c'] == stream[..c'];
    assert stream[..1] + stream[1..c'] == stream[..c'];
  }

  lemma GoesOnInData(payloads: seq<string>, c: nat, c': nat)
    requires Sendable(payloads) && |payloads| > 0 && payloads[0] != ""
    requires |ChunkHead(payloads[0])| <= c < |Chunk(payloads[0])| && c < c' <= |Stream(payloads)|
    ensures Delivered(payloads, c, c') == Decode(Stream(payloads)[..c'], 0)
  {
    hide Decode, DecodeBody, Stream;
    var stream, h := Stream(payloads), |ChunkHead(payloads[0])|;
    RestingHere(payloads, c);
    SizedDecode(stream[h..c] + stream[c..c'], |payloads[0]|);
    StartAfterHead(payloads, c');
    assert stream[h..c] + stream[c..c'] == stream[h..c'];
  }

  lemma GoesOnDropped(payloads: seq<string>, c': nat)
    requires Sendable(payloads) && |payloads| > 0 && payloads[0] == ""
    requires 3 <= c' <= |Stream(payloads)|
    ensures Delivered(payloads, 2, c') == Decode(Stream(payloads)[..c'], 0)
  {
    var stream := Stream(payloads);
    EmptyChunkIsFive();
    RestingHere(payloads, 2);
    DroppedIsNoLoss(payloads, c');
    assert "" + stream[2..c'] == stream[2..c'];
  }

  /** Wherever else it rests in a chunk, the decoder goes on as from the start of the chunk. */
  lemma SettledGoesOn(payloads: seq<string>, c: nat, c': nat)
    requires Sendable(payloads) && |payloads| > 0 && Settled(payloads[0], c) && c < |Chunk(payloads[0])|
    requires c < c' <= |Stream(payloads)| && (c <= 1 || c' >= |ChunkHead(payloads[0])|)
    ensures Delivered(payloads, c, c') == Decode(Stream(payloads)[..c'], 0)
  {
    EmptyChunkIsFive();
    if c <= 1 {
      GoesOnInHead(payloads, c, c');
    } else if payloads[0] == "" {
      GoesOnDropped(payloads, c');
    } else {
      GoesOnInData(payloads, c, c');
    }
  }

  /** The stream from behind the head of an empty chunk. */
  lemma BehindEmptyHead(payloads: seq<string>, tail: seq<string>)
    requires |payloads| > 0 && payloads[0] == "" && tail == payloads[1..]
    ensures Stream(payloads) == "0\r\n" + ("\r\n" + Stream(tail))
  {
    EmptyChunkIsFive();
    StreamSplits(payloads);
    assert "" + "\r\n" + Stream(tail) == "\r\n" + Stream(tail);
  }

  lemma DeliveredInEmpty(payloads: seq<string>, tail: seq<string>, c: nat, c': nat)
    requires Sendable(payloads) && |payloads| > 0 && tail == payloads[1..]
    requires InEmpty(payloads[0], c) && c < c' <= |Stream(payloads)|
    ensures 3 <= c && c' - 3 <= |"\r\n" + Stream(tail)|
    ensures Delivered(payloads, c, c') == Decode(("\r\n" + Stream(tail))[..c' - 3], 0)
  {
    hide Decode, DecodeBody;
    var stream := Stream(payloads);
    EmptyChunkIsFive();
    BehindEmptyHead(payloads, tail);
    RestingHere(payloads, c);
    assert stream[3..c] + stream[c..c'] == ("\r\n" + Stream(tail))[..c' - 3];
  }

  lemma InEmptyStops(payloads: seq<string>, c: nat)
    requires Sendable(payloads) && |payloads| > 0 && InEmpty(payloads[0], c) && c < 4 <= |Stream(payloads)|
    ensures Delivered(payloads, c, 4).end.Stops?
  {
    DeliveredInEmpty(payloads, payloads[1..], c, 4);
    assert ("\r\n" + Stream(payloads[1..]))[..1] == "\r";
    NoLineFeedNoLine("\r");
  }

  /** From behind the head of an empty chunk, the line end of the chunk is taken for a head of size 0. */
  lemma EmptyGoesOn(payloads: seq<string>, tail: seq<string>, c: nat, c': nat)
    requires Sendable(payloads) && |payloads| > 0 && tail == payloads[1..]
    requires InEmpty(payloads[0], c) && c < c' && 5 <= c' <= |Stream(payloads)|
    ensures c' - 5 <= |Stream(tail)|
    ensures Delivered(payloads, c, c') == DecodeBody(Stream(tail)[..c' - 5], 0)
  {
    hide Decode, DecodeBody, Stream;
    DeliveredInEmpty(payloads, tail, c, c');
    assert ("\r\n" + Stream(tail))[..c' - 3] == "\r\n" + Stream(tail)[..c' - 5];
    EmptyHead(Stream(tail)[..c' - 5]);
  }

  // ----- A harmless delivery is exact -----

  /** A position behind the first chunk has nothing to do with that chunk. */
  lemma DeliveredLater(payloads: seq<string>, tail: seq<string>, c: nat, c': nat, e: nat)
    requires Sendable(payloads) && |payloads| > 0 && tail == payloads[1..] && Sendable(tail)
    requires e == |Chunk(payloads[0])| <= c <= c' <= |Stream(payloads)|
    ensures c' - e <= |Stream(tail)| && Delivered(payloads, c, c') == Delivered(tail, c - e, c' - e)
  {
    hide Decode, DecodeBody;
    StreamSplits(payloads);
    assert Stream(payloads)[c..c'] == Stream(tail)[c - e..c' - e];
  }

  /** Exactness of a later delivery carries over to the whole stream. */
  lemma ExactLater(payloads: seq<string>, tail: seq<string>, c: nat, c': nat, e: nat, r: Decoded)
    requires Sendable(payloads) && |payloads| > 0 && tail == payloads[1..] && Sendable(tail)
    requires e == |Chunk(payloads[0])| <= c <= c' <= |Stream(payloads)| && c' - e <= |Stream(tail)|
    requires Exact(tail, c - e, c' - e, r)
    ensures Exact(payloads, c, c', r)
  {
    hide Decode, DecodeBody, Stream;
    var i, j := Whole(tail, c - e), Whole(tail, c' - e);
    assert payloads[i + 1..j + 1] == tail[i..j];
  }

  /** What comes of a delivery from behind the head of an empty chunk. */
  lemma FromEmptyIsExact(tail: seq<string>, n: nat)
    requires Sendable(tail) && FromEmpty(tail, n) && n <= |Stream(tail)|
    ensures Exact(tail, 0, n, DecodeBody(Stream(tail)[..n], 0))
  {
    hide Decode, Stream;
    if n == 0 {
      NothingIsExact(tail);
    } else {
      EmptyChunkIsFive();
      RestingHere(tail, if n < 3 then n else 0);
      assert tail[0..0] == [];
      if n >= 2 {
        EmptyBody(Stream(tail)[..n]);
        if n > 2 {
          DroppedIsNoLoss(tail, n);
          assert Stream(tail)[..n][2..] == Stream(tail)[2..n];
          StartIsExact(tail, n);
        }
      }
    }
  }

  lemma HarmlessInEmpty(payloads: seq<string>, tail: seq<string>, c: nat, c': nat)
    requires Sendable(payloads) && |payloads| > 0 && tail == payloads[1..] && Sendable(tail)
    requires InEmpty(payloads[0], c) && Harmless(payloads, c, c') && c < c' <= |Stream(payloads)|
    ensures Exact(payloads, c, c', Delivered(payloads, c, c'))
  {
    hide Decode, DecodeBody, Stream, Exact;
    EmptyChunkIsFive();
    EmptyGoesOn(payloads, tail, c, c');
    var r := DecodeBody(Stream(tail)[..c' - 5], 0);
    FromEmptyIsExact(tail, c' - 5);
    ExactPast(payloads, tail, c, c', c' - 5, r);
    assert "" + r.out == r.out;
  }

  lemma HarmlessSettled(payloads: seq<string>, c: nat, c': nat)
    requires Sendable(payloads) && |payloads| > 0 && c < |Chunk(payloads[0])| && !InEmpty(payloads[0], c)
    requires Harmless(payloads, c, c') && c < c' <= |Stream(payloads)|
    ensures Exact(payloads, c, c', Delivered(payloads, c, c'))
  {
    hide Decode, DecodeBody, Stream;
    SettledGoesOn(payloads, c, c');
    StartIsExact(payloads, c');
  }

  /** Every harmless delivery does exactly what it should. */
  lemma {:induction false} HarmlessIsExact(payloads: seq<string>, c: nat, c': nat)
    requires Sendable(payloads) && Harmless(payloads, c, c') && c < c' <= |Stream(payloads)|
    ensures Exact(payloads, c, c', Delivered(payloads, c, c'))
    decreases |payloads|
  {
    hide Decode, DecodeBody, Exact, Delivered;
    SendableTail(payloads);
    StreamSplits(payloads);
    var tail, e := payloads[1..], |Chunk(payloads[0])|;
    if c >= e {
      HarmlessIsExact(tail, c - e, c' - e);
      DeliveredLater(payloads, tail, c, c', e);
      ExactLater(payloads, tail, c, c', e, Delivered(payloads, c, c'));
    } else if InEmpty(payloads[0], c) {
      HarmlessInEmpty(payloads, tail, c, c');
    } else {
      HarmlessSettled(payloads, c, c');
    }
  }

  // ----- Any other delivery stops or eats -----

  /** A position at which the decoder can rest. */
  predicate Restable(payloads: seq<string>, c: nat) {
    if |payloads| == 0 then c == 0
    else if c >= |Chunk(payloads[0])| then Restable(payloads[1..], c - |Chunk(payloads[0])|)
    else InEmpty(payloads[0], c) || Settled(payloads[0], c)
  }

  lemma {:induction false} CleanIsRestable(payloads: seq<string>, c: nat)
    requires Clean(payloads, c)
    ensures Restable(payloads, c)
    decreases |payloads|
  {
    if |payloads| > 0 && c >= |Chunk(payloads[0])| {
      CleanIsRestable(payloads[1..], c - |Chunk(payloads[0])|);
    }
  }

  lemma {:induction false} HarmlessEndsRestable(payloads: seq<string>, c: nat, c': nat)
    requires Harmless(payloads, c, c')
    ensures Restable(payloads, c')
    decreases |payloads|
  {
    var tail, e := payloads[1..], |Chunk(payloads[0])|;
    EmptyChunkIsFive();
    if c >= e {
      HarmlessEndsRestable(tail, c - e, c' - e);
    } else if c' >= e && Clean(tail, c' - e) {
      CleanIsRestable(tail, c' - e);
    }
  }

  /** The delivery starts behind the head of an empty chunk and runs two bytes or more into the next chunk,
      which carries data. */
  predicate Eats(payloads: seq<string>, c: nat, c': nat) {
    |payloads| > 1 &&
    var e := |Chunk(payloads[0])|;
    if c >= e then c' >= e && Eats(payloads[1..], c - e, c' - e)
    else InEmpty(payloads[0], c) && c' >= e + 2 && payloads[1] != ""
  }

  lemma StopsInEmpty(payloads: seq<string>, tail: seq<string>, c: nat, c': nat)
    requires Sendable(payloads) && |payloads| > 0 && tail == payloads[1..] && Sendable(tail)
    requires InEmpty(payloads[0], c) && !Harmless(payloads, c, c') && c < c' <= |Stream(payloads)|
    ensures Delivered(payloads, c, c').end.Stops? || Eats(payloads, c, c')
  {
    hide Decode, DecodeBody, Stream, Delivered;
    EmptyChunkIsFive();
    if c' < 5 {
      InEmptyStops(payloads, c);
    } else {
      var n := c' - 5;
      EmptyGoesOn(payloads, tail, c, c');
      NonEmptyTail(tail, n);
      if tail[0] == "" {
        StartStops(tail, n);
        EmptyBody(Stream(tail)[..n]);
        DroppedIsNoLoss(tail, n);
        assert Stream(tail)[..n][2..] == Stream(tail)[2..n];
      }
    }
  }

  lemma NonEmptyTail(tail: seq<string>, n: nat)
    requires n <= |Stream(tail)|
    ensures n > 0 ==> |tail| > 0
  {}

  lemma StopsSettled(payloads: seq<string>, c: nat, c': nat)
    requires Sendable(payloads) && |payloads| > 0 && Settled(payloads[0], c) && !InEmpty(payloads[0], c)
    requires c < |Chunk(payloads[0])| && !Harmless(payloads, c, c') && c < c' <= |Stream(payloads)|
    ensures Delivered(payloads, c, c').end.Stops?
  {
    hide Decode, DecodeBody, Stream, Delivered;
    EmptyChunkIsFive();
    SettledGoesOn(payloads, c, c');
    StartStops(payloads, c');
  }

  /** From where the decoder can rest, a delivery that is not harmless stops it or eats. */
  lemma {:induction false} HarmfulStopsOrEats(payloads: seq<string>, c: nat, c': nat)
    requires Sendable(payloads) && Restable(payloads, c) && !Harmless(payloads, c, c')
    requires c < c' <= |Stream(payloads)|
    ensures Delivered(payloads, c, c').end.Stops? || Eats(payloads, c, c')
    decreases |payloads|
  {
    hide Decode, DecodeBody, Delivered;
    if |payloads| > 0 {
      SendableTail(payloads);
      StreamSplits(payloads);
      var tail, e := payloads[1..], |Chunk(payloads[0])|;
      if c >= e {
        HarmfulStopsOrEats(tail, c - e, c' - e);
        DeliveredLater(payloads, tail, c, c', e);
        NonEmptyTail(tail, c' - e);
      } else if InEmpty(payloads[0], c) {
        StopsInEmpty(payloads, tail, c, c');
      } else {
        StopsSettled(payloads, c, c');
      }
    }
  }

  // ----- Any number of deliveries -----

  /** What has happened after some deliveries: the output of each call, what the decoder holds, and how the
      first call ended that did not just wait. */
  datatype Trace = Trace(outputs: seq<string>, buf: string, size: SizeT, end: Ending)

  predicate Increasing(cuts: seq<nat>, end: nat) {
    && (forall i | 0 <= i < |cuts| :: 0 < cuts[i] <= end)
    && (forall i, j | 0 <= i < j < |cuts| :: cuts[i] < cuts[j])
  }

  function LastCut(cuts: seq<nat>): nat {
    if |cuts| == 0 then 0 else cuts[|cuts| - 1]
  }

  /** One more piece for the decoder. */
  function Fed(t: Trace, bytes: string): Trace {
    var r := Decode(t.buf + bytes, t.size);
    Trace(t.outputs + [r.out], r.buf, r.size, if t.end.Waits? then r.end else t.end)
  }

  /** Delivers `stream` in the pieces that end at the given cuts, calling the decoder after each. */
  function Receive(stream: string, cuts: seq<nat>): (t: Trace)
    requires Increasing(cuts, |stream|)
    ensures |t.outputs| == |cuts|
  {
    if |cuts| == 0 then Trace([], "", 0, Waits)
    else
      var front := cuts[..|cuts| - 1];
      Fed(Receive(stream, front), stream[LastCut(front)..LastCut(cuts)])
  }

  /** The reader object, fed piece by piece until the program would end. */
  method DeliverAll(stream: string, cuts: seq<nat>, reader: Reader) returns (outputs: seq<string>)
    requires Increasing(cuts, |stream|)
    requires reader.recv == "" && reader.chunkedSize == 0 && !reader.stopped && !reader.thrown
    modifies reader
    ensures |outputs| <= |cuts| && (!reader.thrown ==> |outputs| == |cuts|)
    ensures var t := Receive(stream, cuts[..|outputs|]);
            && outputs == t.outputs && reader.recv == t.buf && reader.chunkedSize == t.size
            && (t.end.Waits? <==> !reader.stopped && !reader.thrown) && (t.end.Throws? ==> reader.thrown)
  {
    hide Decode;
    outputs := [];
    var last := 0;
    while |outputs| < |cuts| && !reader.thrown
      invariant |outputs| <= |cuts| && last == LastCut(cuts[..|outputs|])
      invariant var t := Receive(stream, cuts[..|outputs|]);
                && outputs == t.outputs && reader.recv == t.buf && reader.chunkedSize == t.size
                && (t.end.Waits? <==> !reader.stopped && !reader.thrown) && (t.end.Throws? ==> reader.thrown)
      decreases |cuts| - |outputs|
    {
      var i := |outputs|;
      assert cuts[..i + 1][..i] == cuts[..i];
      reader.Receive(stream[last..cuts[i]]);
      var out := reader.ReadDataFromChunk();
      outputs := outputs + [out];
      last := cuts[i];
    }
  }

  /** Every delivery is harmless. */
  predicate AllHarmless(payloads: seq<string>, cuts: seq<nat>) {
    |cuts| > 0 ==>
      var front := cuts[..|cuts| - 1];
      AllHarmless(payloads, front) && Harmless(payloads, LastCut(front), LastCut(cuts))
  }

  /** The outputs so far are exactly the data of the chunks that have arrived as a whole, and no call has
      stopped or thrown. */
  predicate OutputsExact(payloads: seq<string>, cuts: seq<nat>)
    requires Increasing(cuts, |Stream(payloads)|)
  {
    var t := Receive(Stream(payloads), cuts);
    t.end.Waits? && Joined(t.outputs) == Joined(payloads[..Whole(payloads, LastCut(cuts))])
  }

  /** The decoder rests where it should. */
  predicate Rests(payloads: seq<string>, cuts: seq<nat>)
    requires Sendable(payloads) && Increasing(cuts, |Stream(payloads)|)
  {
    var t, rest := Receive(Stream(payloads), cuts), Resting(payloads, LastCut(cuts));
    t.buf == rest.buf && t.size == rest.size
  }

  lemma {:induction false} JoinedAppend(a: seq<string>, b: seq<string>)
    ensures Joined(a + b) == Joined(a) + Joined(b)
  {
    if |a| == 0 {
      assert a + b == b;
    } else {
      assert (a + b)[1..] == a[1..] + b;
      JoinedAppend(a[1..], b);
    }
  }

  lemma JoinedMore(outputs: seq<string>, out: string, payloads: seq<string>, i: nat, j: nat)
    requires i <= j <= |payloads|
    requires Joined(outputs) == Joined(payloads[..i]) && out == Joined(payloads[i..j])
    ensures Joined(outputs + [out]) == Joined(payloads[..j])
  {
    JoinedAppend(outputs, [out]);
    assert Joined([out]) == out + "" == out;
    JoinedAppend(payloads[..i], payloads[i..j]);
    assert payloads[..j] == payloads[..i] + payloads[i..j];
  }

  /** Where the decoder rests as it should, one more piece is one delivery of the stream. */
  lemma FedIsDelivered(payloads: seq<string>, cuts: seq<nat>, front: seq<nat>)
    requires Sendable(payloads) && Increasing(cuts, |Stream(payloads)|) && |cuts| > 0 && front == cuts[..|cuts| - 1]
    requires Rests(payloads, front)
    ensures LastCut(front) < LastCut(cuts)
    ensures var t, r := Receive(Stream(payloads), front), Delivered(payloads, LastCut(front), LastCut(cuts));
            Receive(Stream(payloads), cuts)
            == Trace(t.outputs + [r.out], r.buf, r.size, if t.end.Waits? then r.end else t.end)
  {
    hide Decode, DecodeBody, Stream;
  }

  lemma OneMore(payloads: seq<string>, cuts: seq<nat>, front: seq<nat>)
    requires Sendable(payloads) && Increasing(cuts, |Stream(payloads)|) && |cuts| > 0 && front == cuts[..|cuts| - 1]
    requires OutputsExact(payloads, front) && Rests(payloads, front)
    requires Exact(payloads, LastCut(front), LastCut(cuts), Delivered(payloads, LastCut(front), LastCut(cuts)))
    ensures OutputsExact(payloads, cuts) && Rests(payloads, cuts)
  {
    hide Decode, DecodeBody, Stream, Delivered;
    var t, r := Receive(Stream(payloads), front), Delivered(payloads, LastCut(front), LastCut(cuts));
    FedIsDelivered(payloads, cuts, front);
    JoinedMore(t.outputs, r.out, payloads, Whole(payloads, LastCut(front)), Whole(payloads, LastCut(cuts)));
  }

  lemma NothingReceived(payloads: seq<string>)
    requires Sendable(payloads)
    ensures OutputsExact(payloads, []) && Rests(payloads, []) && Restable(payloads, 0)
  {
    assert payloads[..0] == [];
  }

  /** After every harmless delivery, what has come out is exactly the data of the chunks wholly received,
      the decoder rests at the cut, and it has neither stopped nor thrown. */
  lemma {:induction false} FragmentsDecode(payloads: seq<string>, cuts: seq<nat>)
    requires Sendable(payloads) && Increasing(cuts, |Stream(payloads)|) && AllHarmless(payloads, cuts)
    ensures OutputsExact(payloads, cuts) && Rests(payloads, cuts) && Restable(payloads, LastCut(cuts))
    decreases |cuts|
  {
    hide Decode, DecodeBody, Stream, Exact, OutputsExact, Rests, Harmless;
    NothingReceived(payloads);
    if |cuts| > 0 {
      var front := cuts[..|cuts| - 1];
      FragmentsDecode(payloads, front);
      FedIsDelivered(payloads, cuts, front);
      HarmlessIsExact(payloads, LastCut(front), LastCut(cuts));
      HarmlessEndsRestable(payloads, LastCut(front), LastCut(cuts));
      OneMore(payloads, cuts, front);
    } else {
      assert cuts == [];
    }
  }

  /** The first delivery that is not harmless. */
  lemma {:induction false} FirstHarmful(payloads: seq<string>, cuts: seq<nat>) returns (i: nat)
    requires !AllHarmless(payloads, cuts)
    ensures i < |cuts| && AllHarmless(payloads, cuts[..i])
    ensures !Harmless(payloads, LastCut(cuts[..i]), cuts[i])
    decreases |cuts|
  {
    var front := cuts[..|cuts| - 1];
    if AllHarmless(payloads, front) {
      i := |cuts| - 1;
    } else {
      i := FirstHarmful(payloads, front);
      assert front[..i] == cuts[..i];
    }
  }

  lemma {:induction false} HarmlessPrefix(payloads: seq<string>, cuts: seq<nat>, i: nat)
    requires AllHarmless(payloads, cuts) && i <= |cuts|
    ensures AllHarmless(payloads, cuts[..i])
    decreases |cuts|
  {
    if i < |cuts| {
      HarmlessPrefix(payloads, cuts[..|cuts| - 1], i);
      assert cuts[..|cuts| - 1][..i] == cuts[..i];
    } else {
      assert cuts[..i] == cuts;
    }
  }

  /** A call that stopped or threw is remembered. */
  lemma {:induction false} EndStays(stream: string, cuts: seq<nat>, i: nat)
    requires Increasing(cuts, |stream|) && i <= |cuts| && !Receive(stream, cuts[..i]).end.Waits?
    ensures Receive(stream, cuts).end == Receive(stream, cuts[..i]).end
    decreases |cuts|
  {
    hide Decode, DecodeBody;
    if i < |cuts| {
      assert cuts[..|cuts| - 1][..i] == cuts[..i];
      EndStays(stream, cuts[..|cuts| - 1], i);
    } else {
      assert cuts[..i] == cuts;
    }
  }

  // ----- Without empty payloads -----

  lemma NoEmptyTail(payloads: seq<string>)
    requires NoEmptyPayload(payloads) && |payloads| > 0
    ensures NoEmptyPayload(payloads[1..])
  {
    forall i | 0 <= i < |payloads[1..]|
      ensures |payloads[1..][i]| > 0
    {
      assert payloads[1..][i] == payloads[i + 1];
    }
  }

  lemma {:induction false} HarmlessIsClean(payloads: seq<string>, c: nat, c': nat)
    requires NoEmptyPayload(payloads) && Clean(payloads, c) && c < c' <= |Stream(payloads)|
    ensures Harmless(payloads, c, c') <==> Clean(payloads, c')
    decreases |payloads|
  {
    if |payloads| > 0 {
      NoEmptyTail(payloads);
      StreamSplits(payloads);
      if c >= |Chunk(payloads[0])| {
        HarmlessIsClean(payloads[1..], c - |Chunk(payloads[0])|, c' - |Chunk(payloads[0])|);
      }
    }
  }

  predicate AllClean(payloads: seq<string>, cuts: seq<nat>) {
    forall i | 0 <= i < |cuts| :: Clean(payloads, cuts[i])
  }

  lemma {:induction false} CleanIsHarmless(payloads: seq<string>, cuts: seq<nat>)
    requires NoEmptyPayload(payloads) && Increasing(cuts, |Stream(payloads)|)
    ensures AllHarmless(payloads, cuts) <==> AllClean(payloads, cuts)
    decreases |cuts|
  {
    hide Stream, Harmless, Clean;
    if |cuts| > 0 {
      var front := cuts[..|cuts| - 1];
      CleanIsHarmless(payloads, front);
      assert AllClean(payloads, cuts) <==> AllClean(payloads, front) && Clean(payloads, LastCut(cuts));
      if AllClean(payloads, front) {
        CleanStart(payloads);
        HarmlessIsClean(payloads, LastCut(front), LastCut(cuts));
      }
    }
  }

  lemma CleanStart(payloads: seq<string>)
    ensures Clean(payloads, 0)
  {}

  lemma {:induction false} EatsNeedsEmpty(payloads: seq<string>, c: nat, c': nat)
    requires NoEmptyPayload(payloads)
    ensures !Eats(payloads, c, c')
    decreases |payloads|
  {
    if |payloads| > 1 {
      NoEmptyTail(payloads);
      if c >= |Chunk(payloads[0])| && c' >= |Chunk(payloads[0])| {
        EatsNeedsEmpty(payloads[1..], c - |Chunk(payloads[0])|, c' - |Chunk(payloads[0])|);
      }
    }
  }

  /** With non-empty payloads, the decoder calls `stop()` exactly when some delivery ended strictly inside a
      chunk head, and it never throws. */
  lemma StopsExactlyAtBadCuts(payloads: seq<string>, cuts: seq<nat>)
    requires Sendable(payloads) && NoEmptyPayload(payloads) && Increasing(cuts, |Stream(payloads)|)
    ensures Receive(Stream(payloads), cuts).end == if AllClean(payloads, cuts) then Waits else Stops
  {
    hide Decode, DecodeBody, Stream, Harmless, Clean, Eats, Restable;
    CleanIsHarmless(payloads, cuts);
    if AllHarmless(payloads, cuts) {
      FragmentsDecode(payloads, cuts);
    } else {
      var i := FirstHarmful(payloads, cuts);
      StopsHere(payloads, cuts[..i + 1], cuts[..i]);
      EndStays(Stream(payloads), cuts, i + 1);
    }
  }

  lemma StopsHere(payloads: seq<string>, cuts: seq<nat>, front: seq<nat>)
    requires Sendable(payloads) && NoEmptyPayload(payloads) && Increasing(cuts, |Stream(payloads)|)
    requires |cuts| > 0 && front == cuts[..|cuts| - 1] && AllHarmless(payloads, front)
    requires !Harmless(payloads, LastCut(front), LastCut(cuts))
    ensures Receive(Stream(payloads), cuts).end.Stops?
  {
    hide Decode, DecodeBody, Stream, Harmless, Clean, Eats, Restable;
    FragmentsDecode(payloads, front);
    FedIsDelivered(payloads, cuts, front);
    HarmfulStopsOrEats(payloads, LastCut(front), LastCut(cuts));
    EatsNeedsEmpty(payloads, LastCut(front), LastCut(cuts));
  }
}
