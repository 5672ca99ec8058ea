/** Empty chunks that are cut behind their head: when the decoder falls out of step, and that it then loses
    data of the chunk that follows. */
module EmptyChunks {
  import opened ChunkCodec
  import opened ChunkStream
  import opened EvBuffer

  // ----- How much can still come out -----

  /** A bound on the bytes that can come out of `total` bytes when `size` is in force. Every piece of data
      is followed by two bytes that are dropped, and every head takes at least one. */
  function Future(total: int, size: SizeT): (n: nat) {
    if size == 0 then if total < 3 then 0 else total - 3
    else if total < size + 2 then 0
    else size + if total < size + 5 then 0 else total - size - 5
  }

  /** What came out, and what can still come out when `left` more bytes arrive. */
  function Bound(r: Decoded, left: nat): nat {
    |r.out| + Future(|r.buf| + left, r.size)
  }

  lemma HeadCosts(total: nat, line: nat, size: SizeT)
    requires 1 <= line <= total
    ensures Future(total - line, size) <= Future(total, 0)
  {}

  lemma {:induction false} DecodeFuture(buf: string, size: SizeT, left: nat)
    ensures Decode(buf, size).end.Waits? ==> Bound(Decode(buf, size), left) <= Future(|buf| + left, size)
    decreases |buf|, 1
  {
    hide DecodeBody, HeadSize;
    if size > 0 {
      SizedDecode(buf, size);
      BodyFuture(buf, size, left);
    } else {
      match ReadLine(buf)
      case NoLine =>
      case Line(text, rest) =>
        LineSplits(buf);
        BodyFuture(rest, HeadSize(text), left);
        HeadCosts(|buf| + left, |buf| - |rest|, HeadSize(text));
    }
  }

  lemma {:induction false} BodyFuture(buf: string, size: SizeT, left: nat)
    ensures DecodeBody(buf, size).end.Waits? ==> Bound(DecodeBody(buf, size), left) <= Future(|buf| + left, size)
    decreases |buf|, 0
  {
    hide Decode;
    if PlusTwo(size) <= |buf| && !Wraps(size) {
      var head, crlf, rest := buf[..size], buf[size..size + 2], buf[size + 2..];
      assert buf == head + (crlf + rest);
      BodyIsPiece(buf, size, head, crlf, rest);
      if |rest| > 0 {
        DecodeFuture(rest, 0, left);
      }
    }
  }

  // ----- What is left of a head without its first two bytes -----

  lemma {:induction false} ValueWithoutFirst(s: string)
    requires AllHex(s) && |s| > 0
    ensures AllHex(s[1..]) && HexValue(s[1..]) <= HexValue(s)
    ensures |s| > 1 && DigitValue(s[0]) > 0 ==> HexValue(s[1..]) < HexValue(s)
    decreases |s|
  {
    var front := s[..|s| - 1];
    if |s| > 1 {
      assert s[1..][..|s| - 2] == front[1..];
      ValueWithoutFirst(front);
      if |s| == 2 {
        assert front == [s[0]] && front[..0] == "";
        assert front[1..] == "";
      }
    }
  }

  lemma {:induction false} FirstDigit(n: nat)
    requires n > 0
    ensures AllHex(Hex(n)) && DigitValue(Hex(n)[0]) > 0
  {
    HexReadsBack(n);
    if n < 16 {
      DigitReadsBack(n);
    } else {
      FirstDigit(n / 16);
    }
  }

  /** The digits of a head without the first two. */
  function Remainder(n: nat): string {
    var s := Hex(n);
    if |s| <= 2 then "" else s[2..]
  }

  lemma PlainSize(s: string)
    requires |s| > 0 && AllHex(s) && HexValue(s) < SIZE_T
    ensures '\n' !in s && HeadSize(s) == HexValue(s)
  {
    PlainNumber(s);
    AllHexPrefix(s);
    assert s[..|s|] == s;
  }

  /** What is left announces a smaller size. */
  lemma RemainderIsSmaller(n: nat)
    requires 0 < n < SIZE_T
    ensures '\n' !in Remainder(n) && HeadSize(Remainder(n)) < n
  {
    hide HeadSize;
    var s := Hex(n);
    if |s| <= 2 {
      EmptySize();
    } else {
      HexReadsBack(n);
      FirstDigit(n);
      ValueWithoutFirst(s);
      ValueWithoutFirst(s[1..]);
      assert s[1..][1..] == s[2..];
      PlainSize(s[2..]);
    }
  }

  lemma EmptySize()
    ensures HeadSize("") == 0
  {}

  // ----- A chunk whose head has lost two bytes -----

  /** The chunk without the first two bytes of its head: what is left of the digits, and a line end of
      which the carriage return may be missing as well. */
  lemma EatenLine(p: string, rest: string)
    requires 0 < |p| < SIZE_T - 2
    ensures var eaten := ChunkHead(p)[2..];
            && |ChunkHead(p)| >= 3 && Decode(eaten + rest, 0) == DecodeBody(rest, HeadSize(Remainder(|p|)))
  {
    hide Decode, DecodeBody, HeadSize;
    var s := Hex(|p|);
    RemainderIsSmaller(|p|);
    if |s| == 1 {
      assert ChunkHead(p)[2..] == "\n";
      LoneLf(rest);
      EmptySize();
    } else {
      assert ChunkHead(p)[2..] == Remainder(|p|) + "\r\n";
      ReadPrintedLine(Remainder(|p|), rest);
      LineDecodes(Remainder(|p|) + "\r\n" + rest, Remainder(|p|), rest);
    }
  }

  lemma LineDecodes(buf: string, text: string, rest: string)
    requires ReadLine(buf) == Line(text, rest)
    ensures Decode(buf, 0) == DecodeBody(rest, HeadSize(text))
  {}

  lemma EatenHeadStops(p: string, m: nat)
    requires 0 < |p| < SIZE_T - 2 && 2 < m < |ChunkHead(p)|
    ensures Decode(ChunkHead(p)[2..m], 0).end.Stops?
  {
    hide DecodeBody;
    ScanPrintedSize(|p|);
    assert ChunkHead(p)[2..m] == (Hex(|p|) + "\r")[2..m];
    NoLineFeedNoLine(ChunkHead(p)[2..m]);
  }

  lemma SliceSplits(head: string, rest: string, m: nat)
    requires 2 <= |head| <= m <= |head| + |rest|
    ensures (head + rest)[2..m] == head[2..] + rest[..m - |head|]
  {}

  /** However much of the chunk has arrived, less than its data comes out of it by its end. */
  lemma EatenFallsShort(p: string, tail: string, m: nat)
    requires 0 < |p| < SIZE_T - 2 && 2 < m <= |Chunk(p)|
    ensures var r := Decode((Chunk(p) + tail)[2..m], 0);
            r.end.Waits? ==> Bound(r, |Chunk(p)| - m) < |p|
  {
    hide Decode, DecodeBody, HeadSize, Hex;
    var h, rest := |ChunkHead(p)|, p + "\r\n" + tail;
    assert Chunk(p) + tail == ChunkHead(p) + rest;
    if m < h {
      EatenHeadStops(p, m);
      assert (ChunkHead(p) + rest)[2..m] == ChunkHead(p)[2..m];
    } else {
      EatenLine(p, rest[..m - h]);
      SliceSplits(ChunkHead(p), rest, m);
      RemainderIsSmaller(|p|);
      BodyFuture(rest[..m - h], HeadSize(Remainder(|p|)), |Chunk(p)| - m);
    }
  }

  // ----- Where a delivery eats -----

  /** Where chunk `k` starts. */
  function Start(payloads: seq<string>, k: nat): nat
    requires k <= |payloads|
  {
    if k == 0 then 0 else |Chunk(payloads[0])| + Start(payloads[1..], k - 1)
  }

  lemma {:induction false} StartSplits(payloads: seq<string>, k: nat)
    requires k < |payloads|
    ensures Start(payloads, k + 1) == Start(payloads, k) + |Chunk(payloads[k])| <= |Stream(payloads)|
    ensures Stream(payloads)[Start(payloads, k)..] == Chunk(payloads[k]) + Stream(payloads[k + 1..])
  {
    hide Chunk;
    var tail := payloads[1..];
    if k == 0 {
      assert Start(tail, 0) == 0;
    } else {
      StartSplits(tail, k - 1);
      assert tail[k..] == payloads[k + 1..];
      assert Stream(payloads)[Start(payloads, k)..] == Stream(tail)[Start(tail, k - 1)..];
    }
  }

  lemma {:induction false} WholeAtStart(payloads: seq<string>, k: nat)
    requires k <= |payloads|
    ensures Whole(payloads, Start(payloads, k)) == k
  {
    hide Chunk, Stream;
    if |payloads| > 0 {
      ChunkIsLong(payloads[0]);
      if k > 0 {
        WholeAtStart(payloads[1..], k - 1);
      }
    }
  }

  lemma ChunkIsLong(p: string)
    ensures |Chunk(p)| > 0
  {}

  /** What a delivery gives that eats the two bytes from `b` on. */
  function Eaten(stream: string, b: nat, c': nat): Decoded
    requires b + 2 <= c' <= |stream|
  {
    if c' == b + 2 then Decoded("", "", 0, Waits) else Decode(stream[b + 2..c'], 0)
  }

  lemma EatsHere(payloads: seq<string>, tail: seq<string>, c: nat, c': nat)
    requires Sendable(payloads) && |payloads| > 1 && tail == payloads[1..]
    requires InEmpty(payloads[0], c) && 7 <= c' <= |Stream(payloads)|
    ensures Delivered(payloads, c, c') == Eaten(Stream(payloads), 5, c')
  {
    hide Decode, DecodeBody, Delivered;
    EmptyChunkIsFive();
    EmptyGoesOn(payloads, tail, c, c');
    EmptyBody(Stream(tail)[..c' - 5]);
    StreamSplits(payloads);
    assert Stream(tail)[..c' - 5][2..] == Stream(payloads)[7..c'];
  }

  lemma {:induction false} EatsWhere(payloads: seq<string>, c: nat, c': nat) returns (k: nat)
    requires Sendable(payloads) && Eats(payloads, c, c') && c < c' <= |Stream(payloads)|
    ensures k + 1 < |payloads| && payloads[k] == "" && payloads[k + 1] != "" && Whole(payloads, c) == k
    ensures c < Start(payloads, k + 1) && Start(payloads, k + 1) + 2 <= c'
    ensures Delivered(payloads, c, c') == Eaten(Stream(payloads), Start(payloads, k + 1), c')
    decreases |payloads|
  {
    hide Decode, DecodeBody, Delivered;
    SendableTail(payloads);
    StreamSplits(payloads);
    EmptyChunkIsFive();
    var tail, e := payloads[1..], |Chunk(payloads[0])|;
    if c >= e {
      var j := EatsWhere(tail, c - e, c' - e);
      DeliveredLater(payloads, tail, c, c', e);
      var b := Start(tail, j + 1);
      assert Stream(tail)[b + 2..c' - e] == Stream(payloads)[e + b + 2..c'];
      k := j + 1;
    } else {
      EatsHere(payloads, tail, c, c');
      k := 0;
      assert Start(tail, 0) == 0;
    }
  }

  // ----- The run after it -----

  /** At `pos`, the run has failed, or it has just eaten two bytes, or what can come out by the end of the
      chunk is less than what should. */
  predicate Falling(t: Trace, pos: nat, b: nat, p: string, before: nat) {
    || !t.end.Waits?
    || (pos == b + 2 && t.buf == "" && t.size == 0 && |Joined(t.outputs)| == before)
    || (b + 2 < pos <= b + |Chunk(p)|
        && |Joined(t.outputs)| + Future(|t.buf| + b + |Chunk(p)| - pos, t.size) < before + |p|)
  }

  lemma JoinedSnoc(outputs: seq<string>, out: string)
    ensures Joined(outputs + [out]) == Joined(outputs) + out
  {
    JoinedAppend(outputs, [out]);
    assert Joined([out]) == out + "";
  }

  /** The chunk that follows the empty one, in its stream. */
  predicate Follows(stream: string, b: nat, p: string, rest: string) {
    b <= |stream| && stream[b..] == Chunk(p) + rest && 0 < |p| < SIZE_T - 2
  }

  lemma SliceOfRest(stream: string, b: nat, rest: string, pos: nat)
    requires b + 2 <= pos <= |stream| && stream[b..] == rest
    ensures stream[b + 2..pos] == rest[2..pos - b]
  {
    assert stream[b..][2..pos - b] == stream[b + 2..pos];
  }

  lemma EatenFalls(t: Trace, u: Trace, stream: string, b: nat, p: string, rest: string, pos: nat, before: nat)
    requires Follows(stream, b, p, rest) && b + 2 <= pos <= b + |Chunk(p)|
    requires |Joined(t.outputs)| == before && t.end.Waits?
    requires var r := Eaten(stream, b, pos);
             u == Trace(t.outputs + [r.out], r.buf, r.size, r.end)
    ensures Falling(u, pos, b, p, before)
  {
    hide Decode, DecodeBody, Stream, Chunk;
    var r := Eaten(stream, b, pos);
    JoinedSnoc(t.outputs, r.out);
    if pos > b + 2 {
      SliceOfRest(stream, b, Chunk(p) + rest, pos);
      EatenFallsShort(p, rest, pos - b);
    }
  }

  lemma FallsOn(t: Trace, stream: string, b: nat, p: string, rest: string, pos: nat, pos': nat, before: nat)
    requires Follows(stream, b, p, rest) && b + 2 <= pos < pos' <= b + |Chunk(p)|
    requires Falling(t, pos, b, p, before)
    ensures Falling(Fed(t, stream[pos..pos']), pos', b, p, before)
  {
    hide Decode, DecodeBody, Stream, Chunk;
    var u, left := Fed(t, stream[pos..pos']), b + |Chunk(p)| - pos';
    if t.end.Waits? {
      if pos == b + 2 && t.buf == "" && t.size == 0 && |Joined(t.outputs)| == before {
        assert t.buf + stream[pos..pos'] == stream[b + 2..pos'];
        EatenFalls(t, u, stream, b, p, rest, pos', before);
      } else {
        var r := Decode(t.buf + stream[pos..pos'], t.size);
        JoinedSnoc(t.outputs, r.out);
        DecodeFuture(t.buf + stream[pos..pos'], t.size, left);
      }
    }
  }

  lemma {:induction false} FallsUntilTheEnd(stream: string, cuts: seq<nat>, i: nat, b: nat, p: string, rest: string, before: nat)
    requires Increasing(cuts, |stream|) && i < |cuts| && Follows(stream, b, p, rest)
    requires b + 2 <= cuts[i] && LastCut(cuts) <= b + |Chunk(p)|
    requires Falling(Receive(stream, cuts[..i + 1]), cuts[i], b, p, before)
    ensures Falling(Receive(stream, cuts), LastCut(cuts), b, p, before)
    decreases |cuts|
  {
    hide Decode, DecodeBody, Chunk, Fed, Falling, Follows;
    if i + 1 < |cuts| {
      var front := cuts[..|cuts| - 1];
      assert front[..i + 1] == cuts[..i + 1];
      FallsUntilTheEnd(stream, front, i, b, p, rest, before);
      FallsOn(Receive(stream, front), stream, b, p, rest, LastCut(front), LastCut(cuts), before);
    } else {
      assert cuts[..i + 1] == cuts;
    }
  }

  // ----- Exactly the harmless deliveries are exact -----

  /** The outputs are exact after every delivery. */
  ghost predicate AlwaysExact(payloads: seq<string>, cuts: seq<nat>)
    requires Increasing(cuts, |Stream(payloads)|)
  {
    forall i | 0 <= i <= |cuts| :: OutputsExact(payloads, cuts[..i])
  }

  /** Whenever data follows an empty chunk, some delivery ends just behind this data's chunk. */
  ghost predicate CutsBehindData(payloads: seq<string>, cuts: seq<nat>) {
    forall k: nat | k + 1 < |payloads| && payloads[k] == "" && payloads[k + 1] != "" ::
      Start(payloads, k + 2) in cuts
  }

  lemma HarmlessIsAlwaysExact(payloads: seq<string>, cuts: seq<nat>)
    requires Sendable(payloads) && Increasing(cuts, |Stream(payloads)|) && AllHarmless(payloads, cuts)
    ensures AlwaysExact(payloads, cuts)
  {
    hide Stream, OutputsExact, AllHarmless, Rests;
    forall i | 0 <= i <= |cuts|
      ensures OutputsExact(payloads, cuts[..i])
    {
      HarmlessPrefix(payloads, cuts, i);
      FragmentsDecode(payloads, cuts[..i]);
    }
  }

  lemma JoinedWithEmpty(payloads: seq<string>, k: nat)
    requires k + 1 < |payloads| && payloads[k] == ""
    ensures Joined(payloads[..k + 2]) == Joined(payloads[..k]) + payloads[k + 1]
  {
    hide Joined;
    JoinedSnoc(payloads[..k], "");
    JoinedSnoc(payloads[..k + 1], payloads[k + 1]);
    assert payloads[..k + 1] == payloads[..k] + [""];
    assert payloads[..k + 2] == payloads[..k + 1] + [payloads[k + 1]];
    assert Joined(payloads[..k]) + "" == Joined(payloads[..k]);
  }

  /** Two bytes of a head have been eaten: by the end of the chunk, less than its data has come out, or the
      decoder has failed. */
  lemma EatingLosesData(payloads: seq<string>, cuts: seq<nat>, front: seq<nat>, k: nat, c: nat, c': nat, b: nat)
    requires Sendable(payloads) && Increasing(cuts, |Stream(payloads)|)
    requires |front| < |cuts| && front == cuts[..|front|] && AllHarmless(payloads, front)
    requires c == LastCut(front) && c' == cuts[|front|] && c < c' <= |Stream(payloads)|
    requires k + 1 < |payloads| && payloads[k] == "" && payloads[k + 1] != "" && Whole(payloads, c) == k
    requires b == Start(payloads, k + 1) && b + 2 <= c' && LastCut(cuts) == Start(payloads, k + 2)
    requires Delivered(payloads, c, c') == Eaten(Stream(payloads), b, c')
    ensures !OutputsExact(payloads, cuts)
  {
    hide Decode, DecodeBody, Stream, Chunk, AllHarmless, Delivered, Fed, Start, Resting;
    var p, before, stream, rest := payloads[k + 1], |Joined(payloads[..k])|, Stream(payloads), Stream(payloads[k + 2..]);
    var more := cuts[..|front| + 1];
    StartSplits(payloads, k + 1);
    FragmentsDecode(payloads, front);
    assert more[..|front|] == front;
    FedIsDelivered(payloads, more, front);
    LastIsLargest(cuts, |front|);
    EatenFalls(Receive(stream, front), Receive(stream, more), stream, b, p, rest, c', before);
    FallsUntilTheEnd(stream, cuts, |front|, b, p, rest, before);
    FallenIsInexact(payloads, cuts, k, b);
  }

  lemma LastIsLargest(cuts: seq<nat>, i: nat)
    requires i < |cuts| && forall x, y | 0 <= x < y < |cuts| :: cuts[x] < cuts[y]
    ensures cuts[i] <= LastCut(cuts)
  {}

  lemma FallenIsInexact(payloads: seq<string>, cuts: seq<nat>, k: nat, b: nat)
    requires Increasing(cuts, |Stream(payloads)|) && k + 1 < |payloads| && payloads[k] == ""
    requires LastCut(cuts) == Start(payloads, k + 2) == b + |Chunk(payloads[k + 1])|
    requires Falling(Receive(Stream(payloads), cuts), LastCut(cuts), b, payloads[k + 1], |Joined(payloads[..k])|)
    ensures !OutputsExact(payloads, cuts)
  {
    hide Decode, DecodeBody, Stream, Chunk, Fed, Start;
    JoinedWithEmpty(payloads, k);
    WholeAtStart(payloads, k + 2);
    ChunkIsLongerThanTwo(payloads[k + 1]);
  }

  lemma ChunkIsLongerThanTwo(p: string)
    ensures |Chunk(p)| > 2
  {}

  lemma StoppedIsInexact(payloads: seq<string>, cuts: seq<nat>, front: seq<nat>)
    requires Sendable(payloads) && Increasing(cuts, |Stream(payloads)|) && |cuts| > 0 && front == cuts[..|cuts| - 1]
    requires AllHarmless(payloads, front) && LastCut(front) < LastCut(cuts) <= |Stream(payloads)|
    requires Delivered(payloads, LastCut(front), LastCut(cuts)).end.Stops?
    ensures !OutputsExact(payloads, cuts)
  {
    hide Decode, DecodeBody, Stream, AllHarmless, Delivered, Fed;
    FragmentsDecode(payloads, front);
    FedIsDelivered(payloads, cuts, front);
  }

  lemma EatingIsInexact(payloads: seq<string>, cuts: seq<nat>, front: seq<nat>, c: nat, c': nat) returns (m: nat)
    requires Sendable(payloads) && Increasing(cuts, |Stream(payloads)|) && CutsBehindData(payloads, cuts)
    requires |front| < |cuts| && front == cuts[..|front|] && AllHarmless(payloads, front)
    requires c == LastCut(front) && c' == cuts[|front|] && c < c' <= |Stream(payloads)| && Eats(payloads, c, c')
    ensures m <= |cuts| && !OutputsExact(payloads, cuts[..m])
  {
    hide Decode, DecodeBody, Stream, Chunk, AllHarmless, Delivered, Harmless, Eats, Start, OutputsExact, Eaten;
    var k := EatsWhere(payloads, c, c');
    var j: nat :| j < |cuts| && cuts[j] == Start(payloads, k + 2);
    StartSplits(payloads, k + 1);
    NotBefore(cuts, |front|, j);
    m := j + 1;
    assert cuts[..m][..|front|] == front;
    EatingLosesData(payloads, cuts[..m], front, k, c, c', Start(payloads, k + 1));
  }

  lemma HarmfulIsInexact(payloads: seq<string>, cuts: seq<nat>)
    requires Sendable(payloads) && Increasing(cuts, |Stream(payloads)|) && CutsBehindData(payloads, cuts)
    requires !AllHarmless(payloads, cuts)
    ensures !AlwaysExact(payloads, cuts)
  {
    hide Decode, DecodeBody, Stream, Chunk, AllHarmless, Delivered, Harmless, Restable, Eats, OutputsExact, Rests;
    var i := FirstHarmful(payloads, cuts);
    var front := cuts[..i];
    FragmentsDecode(payloads, front);
    HarmfulStopsOrEats(payloads, LastCut(front), cuts[i]);
    if Eats(payloads, LastCut(front), cuts[i]) {
      var m := EatingIsInexact(payloads, cuts, front, LastCut(front), cuts[i]);
    } else {
      assert cuts[..i + 1][..i] == front;
      StoppedIsInexact(payloads, cuts[..i + 1], front);
    }
  }

  lemma NotBefore(cuts: seq<nat>, i: nat, j: nat)
    requires i < |cuts| && j < |cuts| && LastCut(cuts[..i]) < cuts[j]
    requires forall x, y | 0 <= x < y < |cuts| :: cuts[x] < cuts[y]
    ensures i <= j
  {}

  /** If a delivery ends behind every chunk of data that follows an empty one, the outputs are exact after
      every delivery, and nothing stops or throws, exactly if every delivery is harmless: none ends strictly
      inside a head, and none runs from behind the head of an empty chunk two bytes or more into a chunk
      that carries data, save for the few positions at which the decoder recovers. */
  lemma ExactExactlyIfHarmless(payloads: seq<string>, cuts: seq<nat>)
    requires Sendable(payloads) && Increasing(cuts, |Stream(payloads)|) && CutsBehindData(payloads, cuts)
    ensures AlwaysExact(payloads, cuts) <==> AllHarmless(payloads, cuts)
  {
    if AllHarmless(payloads, cuts) {
      HarmlessIsAlwaysExact(payloads, cuts);
    } else {
      HarmfulIsInexact(payloads, cuts);
    }
  }

  // ----- Examples -----

  lemma TwoDeliveries(payloads: seq<string>, a: nat, b: nat)
    ensures AllHarmless(payloads, [a, b]) <==> Harmless(payloads, 0, a) && Harmless(payloads, a, b)
  {
    assert [a, b][..1] == [a] && [a][..0] == [];
    assert AllHarmless(payloads, [a]) <==> Harmless(payloads, 0, a) by {
      assert AllHarmless(payloads, []);
    }
  }

  lemma ExampleIsHarmless()
    ensures AllHarmless(["", "hello"], [3, 5, 15]) && !AllHarmless(["", "hello"], [3, 15])
  {
    var payloads := ["", "hello"];
    EmptyChunkIsFive();
    assert payloads[1..] == ["hello"] && ["hello"][1..] == [];
    assert |Chunk("hello")| == 10 && Hex(5) == "5";
    TwoDeliveries(payloads, 3, 5);
    TwoDeliveries(payloads, 3, 15);
    assert [3, 5, 15][..2] == [3, 5];
    assert Clean([], 0) && Clean(["hello"], 10) && Clean(payloads, 3) && Clean(payloads, 5);
    assert Harmless(["hello"], 0, 10);
  }

  lemma ExampleStream()
    ensures var payloads := ["", "hello"];
            |Stream(payloads)| == 15 && Start(payloads, 2) == 15 && Sendable(payloads)
  {
    var payloads := ["", "hello"];
    EmptyChunkIsFive();
    assert payloads[1..] == ["hello"] && ["hello"][1..] == [];
    assert |Chunk("hello")| == 10 && Hex(5) == "5";
    assert Stream(payloads) == Chunk("") + Stream(["hello"]) && Stream(["hello"]) == Chunk("hello") + "";
    assert Start(["hello"], 1) == 10 + Start([], 0);
  }

  /** An empty chunk, cut behind its head: delivering its end first decodes everything, running on into the
      next chunk does not. */
  lemma EmptyChunkExample()
    ensures var payloads := ["", "hello"];
            && Increasing([3, 5, 15], |Stream(payloads)|) && AlwaysExact(payloads, [3, 5, 15])
            && Increasing([3, 15], |Stream(payloads)|) && !AlwaysExact(payloads, [3, 15])
  {
    hide AlwaysExact, AllHarmless, Stream, Start;
    var payloads := ["", "hello"];
    ExampleIsHarmless();
    ExampleStream();
    assert [3, 5, 15][2] == 15 && [3, 15][1] == 15;
    ExactExactlyIfHarmless(payloads, [3, 5, 15]);
    ExactExactlyIfHarmless(payloads, [3, 15]);
  }

  /** A text that repeats, as long as its own digits say. */
  function Pattern(n: nat): string {
    if n == 0 then "" else "ab22\r\n" + Pattern(n - 1)
  }

  const SELF := Pattern(5) + "ab22"

  lemma {:induction false} PatternEnds(n: nat)
    ensures Pattern(n) + "ab22\r\n" == Pattern(n + 1) && |Pattern(n)| == 6 * n
  {
    if n > 0 {
      PatternEnds(n - 1);
      assert Pattern(n) + "ab22\r\n" == "ab22\r\n" + (Pattern(n - 1) + "ab22\r\n");
    } else {
      assert "" + "ab22\r\n" == "ab22\r\n" + "";
    }
  }

  lemma SelfIsPattern()
    ensures |SELF| == 34 && SELF + "\r\n" == Pattern(6)
  {
    PatternEnds(5);
    assert SELF + "\r\n" == Pattern(5) + "ab22\r\n";
  }

  lemma TwoDigits()
    ensures Hex(34) == "22" && Hex(0xab22) == "ab22"
  {
    assert Hex(2) == "2";
    assert Hex(0xa) == "a";
    assert Hex(0xab) == Hex(0xa) + "b";
    assert Hex(0xab2) == Hex(0xab) + "2";
    assert Hex(0xab22) == Hex(0xab2) + "2";
  }

  /** Out of step, the decoder finds the text in itself. */
  lemma SelfComesOut()
    ensures Decode("\r\n" + (SELF + "\r\n" + "ab22\r\n"), 0) == Decoded(SELF, "", 0, Waits)
  {
    hide Decode, DecodeBody, HeadSize;
    var body := SELF + "\r\n" + "ab22\r\n";
    SelfIsPattern();
    PatternEnds(6);
    EmptyHead(body);
    EmptyBody(body);
    assert body == Pattern(7) == "ab22\r\n" + Pattern(6);
    assert body[2..] == "22" + "\r\n" + Pattern(6);
    TwoDigits();
    ScanPrintedSize(34);
    ReadPrintedLine("22", Pattern(6));
    LineDecodes(body[2..], "22", Pattern(6));
    BodyIsData(SELF, "");
    assert SELF + "\r\n" + "" == Pattern(6) && SELF + "" == SELF;
  }

  /** A delivery that runs far enough can come out right by accident: here it starts behind an empty head,
      ends behind the head after next, and what has come out is exactly the data in between. */
  lemma RightByAccident(q: string)
    requires |q| == 0xab22
    ensures var payloads := ["", SELF, q];
            && Sendable(payloads) && Increasing([3, 51], |Stream(payloads)|)
            && OutputsExact(payloads, [3]) && OutputsExact(payloads, [3, 51]) && !AllHarmless(payloads, [3, 51])
  {
    hide Decode, DecodeBody, HeadSize, Pattern;
    var payloads, tail := ["", SELF, q], [SELF, q];
    SelfIsPattern();
    TwoDigits();
    EmptyChunkIsFive();
    assert payloads[1..] == tail && tail[1..] == [q];
    StreamSplits(payloads);
    StreamSplits(tail);
    StreamSplits([q]);
    assert ChunkHead(SELF) == "22\r\n" && ChunkHead(q) == "ab22\r\n";
    AccidentalStream(q);
    assert Whole([q], 6) == 0 && Whole(tail, 46) == 1 && Whole(payloads, 51) == 2;
    TwoDeliveries(payloads, 3, 51);
    EatsHere(payloads, tail, 3, 51);
    SelfComesOut();
    AccidentalRun(payloads);
  }

  lemma AccidentalStream(q: string)
    requires |q| == 0xab22
    ensures |Stream(["", SELF, q])| >= 51
    ensures Stream(["", SELF, q])[7..51] == "\r\n" + (SELF + "\r\n" + "ab22\r\n")
  {
    hide Pattern;
    var payloads, tail := ["", SELF, q], [SELF, q];
    SelfIsPattern();
    TwoDigits();
    assert payloads[1..] == tail && tail[1..] == [q] && [q][1..] == [];
    BehindEmptyHead(payloads, tail);
    StreamSplits(tail);
    StreamSplits([q]);
    var rest := q + "\r\n" + Stream([]);
    assert Stream([q]) == "ab22\r\n" + rest;
    Middle(SELF, rest, Stream(payloads));
  }

  lemma Middle(p: string, rest: string, stream: string)
    requires |p| == 34 && stream == "0\r\n" + ("\r\n" + ("22\r\n" + (p + "\r\n" + ("ab22\r\n" + rest))))
    ensures stream[7..51] == "\r\n" + (p + "\r\n" + "ab22\r\n")
  {
    assert stream == "0\r\n\r\n22" + ("\r\n" + (p + "\r\n" + "ab22\r\n")) + rest;
  }

  lemma AccidentalRun(payloads: seq<string>)
    requires |payloads| == 3 && payloads[0] == "" && payloads[1] == SELF && Sendable(payloads)
    requires 51 <= |Stream(payloads)| && Increasing([3, 51], |Stream(payloads)|) && Whole(payloads, 51) == 2
    requires Delivered(payloads, 3, 51) == Decoded(SELF, "", 0, Waits)
    ensures OutputsExact(payloads, [3]) && OutputsExact(payloads, [3, 51])
  {
    hide Decode, DecodeBody, Stream, Delivered;
    EmptyChunkIsFive();
    assert [3, 51][..1] == [3] && [3][..0] == [];
    assert Clean(payloads, 3) && Harmless(payloads, 0, 3);
    assert AllHarmless(payloads, [3]);
    FragmentsDecode(payloads, [3]);
    FedIsDelivered(payloads, [3, 51], [3]);
    JoinedSnoc(Receive(Stream(payloads), [3]).outputs, SELF);
    assert payloads[..0] == [];
    JoinedWithEmpty(payloads, 0);
    assert "" + SELF == SELF;
  }
}
