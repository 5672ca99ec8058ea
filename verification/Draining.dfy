/** What a carrier's event loop meets when it drains a queue: the reads up to the first event that ends the
    loop, and the decoder called once for each of them. */
module Draining {
  import opened Carrier
  import opened ChunkCodec

  /** Some queued event ends the loop. */
  predicate AnyEnds(q: seq<CarrierEvent>, ends: CarrierEvent -> bool) {
    |q| > 0 && (ends(q[0]) || AnyEnds(q[1..], ends))
  }

  /** The number of read events before the first event that ends the loop. */
  function ReadsUntil(q: seq<CarrierEvent>, ends: CarrierEvent -> bool): nat {
    if |q| == 0 || ends(q[0]) then 0 else (if q[0].BevRead? then 1 else 0) + ReadsUntil(q[1..], ends)
  }

  /** What calling the decoder leaves, whether it called `stop()`, and whether it threw. */
  datatype Calls = Calls(buf: string, size: SizeT, stopped: bool, thrown: bool)

  /** The decoder called `n` times on what has arrived, up to a call that throws. */
  function CallsAfter(buf: string, size: SizeT, n: nat): Calls
    decreases n
  {
    if n == 0 then Calls(buf, size, false, false)
    else
      var d := Decode(buf, size);
      if d.end.Throws? then Calls(d.buf, d.size, false, true)
      else
        var calls := CallsAfter(d.buf, d.size, n - 1);
        calls.(stopped := d.end.Stops? || calls.stopped)
  }

  /** What a loop makes of `n` read events, with or without chunking. */
  function Drained(chunked: bool, buf: string, size: SizeT, n: nat): Calls {
    if chunked then CallsAfter(buf, size, n) else Calls(if n > 0 then "" else buf, size, false, false)
  }

  lemma DrainedNone(chunked: bool, buf: string, size: SizeT)
    ensures Drained(chunked, buf, size, 0) == Calls(buf, size, false, false)
  {}

  /** One read, and then the others. */
  lemma DrainedFirst(chunked: bool, buf: string, size: SizeT, n: nat)
    requires n > 0
    ensures Drained(chunked, buf, size, n)
         == if !chunked then Drained(false, "", size, n - 1)
            else
              var d := Decode(buf, size);
              if d.end.Throws? then Calls(d.buf, d.size, false, true)
              else
                var calls := Drained(true, d.buf, d.size, n - 1);
                calls.(stopped := d.end.Stops? || calls.stopped)
  {}

  /** Two reads of a stream that has arrived as a whole: the first call takes all of it, and the second
      finds nothing and calls `stop()`. */
  lemma SecondReadStops(payloads: seq<string>)
    requires |payloads| > 0 && Sendable(payloads)
    ensures CallsAfter(Stream(payloads), 0, 2) == Calls("", 0, true, false)
    ensures CallsAfter(Stream(payloads), 0, 1) == Calls("", 0, false, false)
  {
    WholeStreamDecodes(payloads);
    var first := Decode(Stream(payloads), 0);
    assert CallsAfter("", 0, 0) == Calls("", 0, false, false);
    assert Decode("", 0) == Decoded("", "", 0, Stops);
    assert CallsAfter("", 0, 1) == Calls("", 0, true, false);
  }
}
