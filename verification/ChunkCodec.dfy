/** The chunked transfer coding of section 7.1 of RFC 9112 as the caster writes and reads it. */
module ChunkCodec {
  import opened EvBuffer
  import opened Options
  import opened Sequences

  // ----- Hexadecimal sizes -----

  function Digit(d: nat): char
    requires d < 16
  {
    if d < 10 then (d + '0' as int) as char else (d - 10 + 'a' as int) as char
  }

  /** `%lx`: the shortest lower-case hexadecimal number. */
  function Hex(n: nat): (s: string)
    ensures |s| > 0
  {
    if n < 16 then [Digit(n)] else Hex(n / 16) + [Digit(n % 16)]
  }

  predicate IsHex(c: char) {
    '0' <= c <= '9' || 'a' <= c <= 'f' || 'A' <= c <= 'F'
  }

  function DigitValue(c: char): (v: nat)
    requires IsHex(c)
    ensures v < 16
  {
    if '0' <= c <= '9' then c as int - '0' as int
    else if 'a' <= c <= 'f' then c as int - 'a' as int + 10
    else c as int - 'A' as int + 10
  }

  function HexValue(s: string): nat
    requires forall i | 0 <= i < |s| :: IsHex(s[i])
  {
    if |s| == 0 then 0 else 16 * HexValue(s[..|s| - 1]) + DigitValue(s[|s| - 1])
  }

  /** The number of leading hexadecimal digits. */
  function HexPrefix(s: string): (n: nat)
    ensures n <= |s| && forall i | 0 <= i < n :: IsHex(s[i])
    ensures n < |s| ==> !IsHex(s[n])
  {
    if |s| == 0 || !IsHex(s[0]) then 0 else 1 + HexPrefix(s[1..])
  }

  const SIZE_T := 0x1_0000_0000_0000_0000

  type SizeT = n: nat | n < SIZE_T

  /** `size + 2` in 64 bits. */
  function PlusTwo(size: SizeT): SizeT {
    if Wraps(size) then size + 2 - SIZE_T else size + 2
  }

  predicate Wraps(size: SizeT) {
    size + 2 >= SIZE_T
  }

  function WithoutSign(s: string): string {
    if |s| > 0 && (s[0] == '-' || s[0] == '+') then s[1..] else s
  }

  function Without0x(s: string): string {
    if |s| > 2 && s[0] == '0' && (s[1] == 'x' || s[1] == 'X') && IsHex(s[2]) then s[2..] else s
  }

  /** `sscanf(line, "%zx", &size)`: white space, a sign and `0x` may come first, anything may follow.
      The result is `None` when no digit is found, and the variable keeps its value. */
  function ScanSize(line: string): Option<SizeT> {
    var s := SkipSpace(CStr(line));
    var digits := Without0x(WithoutSign(s));
    var n := HexPrefix(digits);
    if n == 0 then None
    else
      var size := HexValue(digits[..n]);
      if size >= SIZE_T then Some(SIZE_T - 1)
      else if s[0] == '-' then Some((SIZE_T - size) % SIZE_T)
      else Some(size)
  }

  /** The size a chunk head announces. A head without digits announces its own length, because the
      variable still holds it. */
  function HeadSize(text: string): SizeT {
    var n := ScanSize(text);
    if n.Some? then n.value else |text| % SIZE_T
  }

  lemma DigitReadsBack(d: nat)
    requires d < 16
    ensures IsHex(Digit(d)) && DigitValue(Digit(d)) == d
  {}

  lemma HexIsPlain(c: char)
    requires IsHex(c)
    ensures c != '\0' && c != '-' && c != '+' && c != 'x' && c != 'X' && !IsSpace(c)
  {}

  predicate AllHex(s: string) {
    forall i | 0 <= i < |s| :: IsHex(s[i])
  }

  lemma HexValueSnoc(s: string, c: char)
    requires AllHex(s) && IsHex(c)
    ensures AllHex(s + [c]) && HexValue(s + [c]) == 16 * HexValue(s) + DigitValue(c)
  {
    assert (s + [c])[..|s|] == s;
  }

  lemma OneDigit(n: nat)
    requires n < 16
    ensures AllHex(Hex(n)) && HexValue(Hex(n)) == n
  {
    DigitReadsBack(n);
    HexValueSnoc("", Digit(n));
    assert Hex(n) == "" + [Digit(n)];
  }

  lemma MoreDigits(n: nat, q: nat, r: nat)
    requires n >= 16 && q == n / 16 && r == n % 16
    requires AllHex(Hex(q)) && HexValue(Hex(q)) == q
    ensures AllHex(Hex(n)) && HexValue(Hex(n)) == n
  {
    DigitReadsBack(r);
    HexValueSnoc(Hex(q), Digit(r));
    assert Hex(n) == Hex(q) + [Digit(r)];
  }

  lemma {:induction false} HexReadsBack(n: nat)
    ensures AllHex(Hex(n)) && HexValue(Hex(n)) == n
  {
    if n < 16 {
      OneDigit(n);
    } else {
      HexReadsBack(n / 16);
      MoreDigits(n, n / 16, n % 16);
    }
  }

  lemma {:induction false} AllHexPrefix(s: string)
    requires forall i | 0 <= i < |s| :: IsHex(s[i])
    ensures HexPrefix(s) == |s|
  {
    if |s| > 0 {
      AllHexPrefix(s[1..]);
    }
  }

  lemma PlainNumber(s: string)
    requires |s| > 0 && forall i | 0 <= i < |s| :: IsHex(s[i])
    ensures '\n' !in s && s[0] != '-'
    ensures SkipSpace(CStr(s)) == s && WithoutSign(s) == s && Without0x(s) == s
  {
    forall i | 0 <= i < |s|
      ensures s[i] != '\0' && s[i] != '\n' && s[i] != '-' && s[i] != '+' && s[i] != 'x' && s[i] != 'X' && !IsSpace(s[i])
    {
      HexIsPlain(s[i]);
    }
    CStrWhole(s);
  }

  /** The size that is printed is the size that is scanned. */
  lemma ScanPrintedSize(n: nat)
    requires n < SIZE_T
    ensures '\n' !in Hex(n) && HeadSize(Hex(n)) == n
  {
    var s := Hex(n);
    HexReadsBack(n);
    PlainNumber(s);
    AllHexPrefix(s);
    assert s[..|s|] == s;
  }

  // ----- Writing -----

  function ChunkHead(data: string): string {
    Hex(|data|) + "\r\n"
  }

  function Chunk(data: string): string {
    ChunkHead(data) + data + "\r\n"
  }

  function Stream(payloads: seq<string>): string {
    if |payloads| == 0 then "" else Chunk(payloads[0]) + Stream(payloads[1..])
  }

  lemma Regrouped(a: string, b: string, c: string, d: string)
    ensures a + b + c + d == a + (b + c + d) && a + (b + c) == a + b + c
  {}

  /** The sending side of a carrier: its buffer, and what has been handed to the connection. */
  class Writer {
    var sendBuf: string
    var wire: string

    constructor ()
      ensures sendBuf == "" && wire == ""
    {
      sendBuf, wire := "", "";
    }

    method SendData(data: string, chunked: bool)
      modifies this
      ensures sendBuf == ""
      ensures wire == old(wire) + old(sendBuf) + if chunked then Chunk(data) else data
    {
      ghost var sent := if chunked then Chunk(data) else data;
      if chunked {
        sendBuf := sendBuf + ChunkHead(data);
        sendBuf := sendBuf + data;
        sendBuf := sendBuf + "\r\n";
        Regrouped(old(sendBuf), ChunkHead(data), data, "\r\n");
      } else {
        sendBuf := sendBuf + data;
      }
      assert sendBuf == old(sendBuf) + sent;
      wire := wire + sendBuf;
      Regrouped(old(wire), old(sendBuf), sent, "");
      sendBuf := "";
    }
  }

  // ----- Reading -----

  /** How a call of the decoder ends: it waits for more, or it has called `stop()`, or making room for
      the data has thrown, which no coroutine catches and which ends the program. */
  datatype Ending = Waits | Stops | Throws

  /** One call of the decoder: what it returns, what it leaves, and how it ends. */
  datatype Decoded = Decoded(out: string, buf: string, size: SizeT, end: Ending)

  /** What the decoder does with a buffer when `size` bytes of a chunk are still expected, where 0 means
      that no head has been read. */
  function Decode(buf: string, size: SizeT): (r: Decoded)
    ensures |r.out| + |r.buf| <= |buf| && (r.end.Throws? ==> r.out == "")
    decreases |buf|, 1
  {
    if size == 0 then
      match ReadLine(buf)
      case NoLine => Decoded("", buf, 0, Stops)
      case Line(text, rest) => DecodeBody(rest, HeadSize(text))
    else DecodeBody(buf, size)
  }

  /** `size + 2` is computed in 64 bits. Where it wraps, the comparison with the length passes although
      no vector of that size can be made. */
  function DecodeBody(buf: string, size: SizeT): (r: Decoded)
    ensures |r.out| + |r.buf| <= |buf| && (r.end.Throws? ==> r.out == "")
    decreases |buf|, 0
  {
    if PlusTwo(size) > |buf| then Decoded("", buf, size, Waits)
    else if Wraps(size) then Decoded("", buf, size, Throws)
    else
      var rest := buf[size + 2..];
      if |rest| > 0 then
        var next := Decode(rest, 0);
        if next.end.Throws? then next else next.(out := buf[..size] + next.out)
      else Decoded(buf[..size], "", 0, Waits)
  }

  lemma SizedDecode(buf: string, size: SizeT)
    requires size > 0
    ensures Decode(buf, size) == DecodeBody(buf, size)
  {}

  /** The receiving side of a carrier. */
  class Reader {
    var recv: string
    var chunkedSize: SizeT
    var stopped: bool
    var thrown: bool

    constructor ()
      ensures recv == "" && chunkedSize == 0 && !stopped && !thrown
    {
      recv, chunkedSize, stopped, thrown := "", 0, false, false;
    }

    /** Bytes arrive from the connection. */
    method Receive(bytes: string)
      modifies `recv
      ensures recv == old(recv) + bytes
    {
      recv := recv + bytes;
    }

    /** A line that is there becomes the size in force; without a line the carrier is stopped. */
    method ReadHead() returns (found: bool)
      modifies this
      ensures thrown == old(thrown)
      ensures match ReadLine(old(recv))
              case NoLine => !found && recv == old(recv) && chunkedSize == old(chunkedSize) && stopped
              case Line(text, rest) =>
                found && recv == rest && chunkedSize == HeadSize(text) && stopped == old(stopped)
    {
      var line := ReadLine(recv);
      found := line.Line?;
      if !found {
        stopped := true;
        return;
      }
      recv := line.rest;
      var chunkHeadSize := |line.text| % SIZE_T;
      var scanned := ScanSize(line.text);
      if scanned.Some? {
        chunkHeadSize := scanned.value;
      }
      chunkedSize := chunkHeadSize;
    }

    method ReadDataFromChunk() returns (datas: string)
      requires !thrown
      modifies this
      ensures var r := Decode(old(recv), old(chunkedSize));
              datas == r.out && recv == r.buf && chunkedSize == r.size
              && stopped == (old(stopped) || r.end.Stops?) && thrown == r.end.Throws?
      decreases |recv|
    {
      datas := "";
      if chunkedSize == 0 {
        var found := ReadHead();
        if !found {
          return;
        }
      }
      var length := |recv|;
      if PlusTwo(chunkedSize) > length {
        return;
      }
      if Wraps(chunkedSize) {
        thrown := true;
        return;
      }
      datas := recv[..chunkedSize];
      recv := recv[chunkedSize..];
      recv := recv[2..];
      chunkedSize := 0;
      if |recv| > 0 {
        var nextDatas := ReadDataFromChunk();
        datas := if thrown then "" else datas + nextDatas;
      }
    }
  }

  // ----- Any buffer: output bytes are input bytes, in order -----

  predicate Subsequence(a: string, b: string) {
    |a| == 0 || (|b| > 0 && ((a[0] == b[0] && Subsequence(a[1..], b[1..])) || Subsequence(a, b[1..])))
  }

  lemma {:induction false} SubsequenceAfter(x: string, a: string, b: string)
    requires Subsequence(a, b)
    ensures Subsequence(a, x + b)
  {
    if |x| == 0 {
      assert x + b == b;
    } else {
      SubsequenceAfter(x[1..], a, b);
      assert (x + b)[1..] == x[1..] + b;
    }
  }

  lemma {:induction false} SubsequencePrefixed(x: string, a: string, b: string)
    requires Subsequence(a, b)
    ensures Subsequence(x + a, x + b)
  {
    if |x| == 0 {
      assert x + a == a && x + b == b;
    } else {
      SubsequencePrefixed(x[1..], a, b);
      assert (x + a)[1..] == x[1..] + a && (x + b)[1..] == x[1..] + b;
    }
  }

  lemma SubsequenceOfItself(s: string)
    ensures Subsequence("" + s, s)
  {
    SubsequencePrefixed(s, "", "");
    assert s + "" == s && "" + s == s;
  }

  /** Whatever the buffer holds and however the call ends, the bytes returned and then the bytes left
      over occur in it in this order. */
  lemma {:induction false} OutputFromInput(buf: string, size: SizeT)
    ensures var r := Decode(buf, size); Subsequence(r.out + r.buf, buf)
    decreases |buf|, 1
  {
    if size == 0 {
      match ReadLine(buf)
      case NoLine =>
        SubsequenceOfItself(buf);
      case Line(text, rest) =>
        LineSplits(buf);
        BodyFromInput(rest, HeadSize(text));
        var r := DecodeBody(rest, HeadSize(text));
        SubsequenceAfter(buf[..|buf| - |rest|], r.out + r.buf, rest);
    } else {
      BodyFromInput(buf, size);
    }
  }

  /** Data, line end, and what the rest of the buffer gave. */
  lemma PieceFromInput(head: string, crlf: string, rest: string, next: Decoded)
    requires Subsequence(next.out + next.buf, rest)
    ensures Subsequence(next.out + next.buf, head + (crlf + rest))
    ensures Subsequence((head + next.out) + next.buf, head + (crlf + rest))
  {
    SubsequenceAfter(crlf, next.out + next.buf, rest);
    SubsequenceAfter(head, next.out + next.buf, crlf + rest);
    SubsequencePrefixed(head, next.out + next.buf, crlf + rest);
    assert (head + next.out) + next.buf == head + (next.out + next.buf);
  }

  /** The call for what follows a whole chunk. */
  function Following(rest: string): (next: Decoded)
    ensures |next.out| + |next.buf| <= |rest|
  {
    if |rest| > 0 then Decode(rest, 0) else Decoded("", "", 0, Waits)
  }

  /** What a whole chunk and the call for what follows it give. */
  function Behind(data: string, rest: string): Decoded {
    var next := Following(rest);
    if next.end.Throws? then next else next.(out := data + next.out)
  }

  lemma BodyIsPiece(buf: string, size: SizeT, head: string, crlf: string, rest: string)
    requires !Wraps(size) && |head| == size && |crlf| == 2 && buf == head + (crlf + rest)
    ensures DecodeBody(buf, size) == Behind(head, rest)
  {
    assert buf[..size] == head && buf[size + 2..] == rest;
    assert head + "" == head;
  }

  lemma {:induction false} BodyFromInput(buf: string, size: SizeT)
    ensures var r := DecodeBody(buf, size); Subsequence(r.out + r.buf, buf)
    decreases |buf|, 0
  {
    if PlusTwo(size) > |buf| || Wraps(size) {
      SubsequenceOfItself(buf);
    } else {
      var head, crlf, rest := buf[..size], buf[size..size + 2], buf[size + 2..];
      assert buf == head + (crlf + rest);
      if |rest| > 0 {
        OutputFromInput(rest, 0);
      }
      PieceFromInput(head, crlf, rest, Following(rest));
      BodyIsPiece(buf, size, head, crlf, rest);
    }
  }

  // ----- Where the size wraps -----

  /** The size in force, and the buffer behind its head. */
  datatype Force = Force(buf: string, size: SizeT)

  function InForce(buf: string, size: SizeT): (f: Option<Force>)
    ensures f.Some? ==> |f.value.buf| <= |buf|
  {
    if size != 0 then Some(Force(buf, size))
    else
      match ReadLine(buf)
      case NoLine => None
      case Line(text, rest) => Some(Force(rest, HeadSize(text)))
  }

  /** The size in force after `n` whole chunks, if the buffer gets so far. */
  function HeadAfter(buf: string, size: SizeT, n: nat): Option<Force>
    decreases n
  {
    var f := InForce(buf, size);
    if n == 0 || f.None? then f
    else if Wraps(f.value.size) || f.value.size + 2 >= |f.value.buf| then None
    else HeadAfter(f.value.buf[f.value.size + 2..], 0, n - 1)
  }

  /** The size is 2^64 - 2, or it is 2^64 - 1 and at least one byte follows. */
  predicate Overflows(f: Option<Force>) {
    f.Some? && (f.value.size == SIZE_T - 2 || (f.value.size == SIZE_T - 1 && |f.value.buf| > 0))
  }

  lemma ForceDecodes(buf: string, size: SizeT)
    ensures match InForce(buf, size)
            case None => Decode(buf, size).end.Stops?
            case Some(f) => Decode(buf, size) == DecodeBody(f.buf, f.size)
  {}

  /** What the next chunk in the buffer adds. */
  lemma BodyGoesOn(buf: string, size: SizeT)
    requires !Wraps(size)
    ensures DecodeBody(buf, size).end.Throws? <==> size + 2 < |buf| && Decode(buf[size + 2..], 0).end.Throws?
  {}

  lemma HeadGoesOn(buf: string, size: SizeT, n: nat, f: Force)
    requires InForce(buf, size) == Some(f) && n > 0
    ensures HeadAfter(buf, size, n)
         == if Wraps(f.size) || f.size + 2 >= |f.buf| then None else HeadAfter(f.buf[f.size + 2..], 0, n - 1)
  {}

  predicate OverflowsAfter(buf: string, size: SizeT, n: nat) {
    Overflows(HeadAfter(buf, size, n))
  }

  lemma ThrowsAtOnce(buf: string, size: SizeT)
    requires OverflowsAfter(buf, size, 0)
    ensures Decode(buf, size).end.Throws?
  {
    ForceDecodes(buf, size);
  }

  lemma OverflowsAtOnce(buf: string, size: SizeT, f: Force)
    requires InForce(buf, size) == Some(f) && Wraps(f.size) && DecodeBody(f.buf, f.size).end.Throws?
    ensures OverflowsAfter(buf, size, 0)
  {
    assert HeadAfter(buf, size, 0) == Some(f);
  }

  lemma ForceBefore(buf: string, size: SizeT, n: nat)
    requires OverflowsAfter(buf, size, n)
    ensures InForce(buf, size).Some?
  {}

  lemma OverflowsLater(buf: string, size: SizeT, n: nat, f: Force)
    requires n > 0 && InForce(buf, size) == Some(f)
    ensures OverflowsAfter(buf, size, n)
       <==> !Wraps(f.size) && f.size + 2 < |f.buf| && OverflowsAfter(f.buf[f.size + 2..], 0, n - 1)
  {
    HeadGoesOn(buf, size, n, f);
  }

  lemma {:induction false} ThrowsOnOverflow(buf: string, size: SizeT, n: nat)
    requires OverflowsAfter(buf, size, n)
    ensures Decode(buf, size).end.Throws?
    decreases n
  {
    hide Decode, DecodeBody, HeadAfter, InForce, OverflowsAfter;
    if n == 0 {
      ThrowsAtOnce(buf, size);
    } else {
      ForceDecodes(buf, size);
      ForceBefore(buf, size, n);
      var f := InForce(buf, size).value;
      OverflowsLater(buf, size, n, f);
      BodyGoesOn(f.buf, f.size);
      ThrowsOnOverflow(f.buf[f.size + 2..], 0, n - 1);
    }
  }

  lemma {:induction false} OverflowsWhenThrown(buf: string, size: SizeT) returns (n: nat)
    requires Decode(buf, size).end.Throws?
    ensures OverflowsAfter(buf, size, n)
    decreases |buf|
  {
    hide Decode, DecodeBody, HeadAfter, InForce, OverflowsAfter;
    ForceDecodes(buf, size);
    var f := InForce(buf, size).value;
    if Wraps(f.size) {
      OverflowsAtOnce(buf, size, f);
      n := 0;
    } else {
      BodyGoesOn(f.buf, f.size);
      var m := OverflowsWhenThrown(f.buf[f.size + 2..], 0);
      n := m + 1;
      OverflowsLater(buf, size, n, f);
    }
  }

  /** The decoder throws exactly if some size in force, after any number of whole chunks, is 2^64 - 2, or
      is 2^64 - 1 with at least one byte behind its head. */
  lemma ThrowsExactlyOnOverflow(buf: string, size: SizeT)
    ensures Decode(buf, size).end.Throws? <==> exists n: nat :: OverflowsAfter(buf, size, n)
  {
    if Decode(buf, size).end.Throws? {
      var n := OverflowsWhenThrown(buf, size);
    }
    forall n: nat | OverflowsAfter(buf, size, n)
      ensures Decode(buf, size).end.Throws?
    {
      ThrowsOnOverflow(buf, size, n);
    }
  }

  // ----- A whole stream decodes back -----

  function Joined(payloads: seq<string>): string {
    if |payloads| == 0 then "" else payloads[0] + Joined(payloads[1..])
  }

  lemma HeadIsLine(data: string, tail: string)
    requires |data| < SIZE_T
    ensures ReadLine(ChunkHead(data) + tail) == Line(Hex(|data|), tail)
    ensures Decode(ChunkHead(data) + tail, 0) == DecodeBody(tail, |data|)
  {
    ScanPrintedSize(|data|);
    ReadPrintedLine(Hex(|data|), tail);
    assert ChunkHead(data) + tail == Hex(|data|) + "\r\n" + tail;
  }

  lemma BodyIsData(data: string, tail: string)
    requires |data| < SIZE_T - 2
    ensures DecodeBody(data + "\r\n" + tail, |data|) == Behind(data, tail)
  {
    assert data + "\r\n" + tail == data + ("\r\n" + tail);
    BodyIsPiece(data + "\r\n" + tail, |data|, data, "\r\n", tail);
  }

  /** Every payload leaves room for `size + 2` in 64 bits. */
  predicate Sendable(payloads: seq<string>) {
    forall i | 0 <= i < |payloads| :: |payloads[i]| < SIZE_T - 2
  }

  /** Decoding what was sent gives back what was sent, empty payloads included, and leaves nothing. */
  lemma {:induction false} WholeStreamDecodes(payloads: seq<string>)
    requires |payloads| > 0 && Sendable(payloads)
    ensures Decode(Stream(payloads), 0) == Decoded(Joined(payloads), "", 0, Waits)
  {
    hide Decode, DecodeBody;
    var p, rest := payloads[0], Stream(payloads[1..]);
    assert Stream(payloads) == ChunkHead(p) + (p + "\r\n" + rest);
    HeadIsLine(p, p + "\r\n" + rest);
    BodyIsData(p, rest);
    if |payloads| > 1 {
      WholeStreamDecodes(payloads[1..]);
    } else {
      assert p + "" == p;
    }
  }

  lemma {:induction false} LongPayloadThrows(payloads: seq<string>)
    requires (forall i | 0 <= i < |payloads| :: |payloads[i]| < SIZE_T) && !Sendable(payloads)
    ensures Decode(Stream(payloads), 0).end.Throws?
  {
    hide Decode;
    var p, rest := payloads[0], Stream(payloads[1..]);
    assert Stream(payloads) == ChunkHead(p) + (p + "\r\n" + rest);
    HeadIsLine(p, p + "\r\n" + rest);
    if |p| < SIZE_T - 2 {
      BodyIsData(p, rest);
      var i :| 0 <= i < |payloads| && |payloads[i]| >= SIZE_T - 2;
      assert payloads[1..][i - 1] == payloads[i];
      LongPayloadThrows(payloads[1..]);
    }
  }

  /** Among streams whose sizes can be printed in 64 bits, exactly those without a payload of 2^64 - 2 or
      2^64 - 1 bytes decode back. */
  lemma DecodesExactlyIfSendable(payloads: seq<string>)
    requires |payloads| > 0 && forall i | 0 <= i < |payloads| :: |payloads[i]| < SIZE_T
    ensures Decode(Stream(payloads), 0) == Decoded(Joined(payloads), "", 0, Waits) <==> Sendable(payloads)
  {
    if Sendable(payloads) {
      WholeStreamDecodes(payloads);
    } else {
      LongPayloadThrows(payloads);
    }
  }

  lemma FifteenAppends(n: nat)
    requires n > 0
    ensures Hex(16 * n + 15) == Hex(n) + "f"
  {
    assert (16 * n + 15) / 16 == n && (16 * n + 15) % 16 == 15;
  }

  lemma {:induction false} AllFs(k: nat, n: nat)
    requires k > 0 && n == Fs(k)
    ensures n > 0 && Hex(n) == seq(k, _ => 'f')
  {
    if k == 1 {
      assert Hex(15) == ['f'];
    } else {
      AllFs(k - 1, Fs(k - 1));
      FifteenAppends(Fs(k - 1));
      assert seq(k, _ => 'f') == seq(k - 1, _ => 'f') + ['f'];
    }
  }

  /** The number printed as `k` times the digit f. */
  function Fs(k: nat): nat {
    if k == 0 then 0 else 16 * Fs(k - 1) + 15
  }

  lemma SixteenFs()
    ensures Fs(16) == SIZE_T - 1 && Hex(SIZE_T - 1) == seq(16, _ => 'f')
  {
    assert Fs(4) == 0xffff;
    assert Fs(8) == 0xffff_ffff;
    assert Fs(12) == 0xffff_ffff_ffff;
    assert Fs(16) == 0xffff_ffff_ffff_ffff;
    AllFs(16, Fs(16));
  }

  /** One byte behind the head ffffffffffffffff ends the program; the head alone does not. */
  lemma HugeHeadThrows(x: char)
    ensures var head := seq(16, _ => 'f') + "\r\n";
            && Decode(head + [x], 0).end.Throws?
            && Decode(head + "", 0) == Decoded("", "", SIZE_T - 1, Waits)
  {
    SixteenFs();
    ScanPrintedSize(SIZE_T - 1);
    ReadPrintedLine(Hex(SIZE_T - 1), [x]);
    ReadPrintedLine(Hex(SIZE_T - 1), "");
  }
}
