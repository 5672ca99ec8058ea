/** The event channel a running coroutine consumes, and what one coroutine sees of it over any sequence
    of operations. */
module Channel {
  import opened Options

  /** The channel's fields: `waiting` means that a coroutine handle is stored in `_waiter`. */
  datatype Chan<E> = Chan(queue: seq<E>, waiting: bool, closed: bool)

  /** What an operation hands to the coroutine: nothing, an event, or the end of the channel. In the
      last two cases the coroutine runs. */
  datatype Wake<E> = NoWake | Got(event: E) | End

  function Empty<E>(): Chan<E> {
    Chan([], false, false)
  }

  /** A stored waiter means that nothing is queued and the channel is open. */
  predicate ChanOk<E>(c: Chan<E>) {
    c.waiting ==> c.queue == [] && !c.closed
  }

  // `await_resume`: the front of the queue, or the end.
  function Resume<E>(c: Chan<E>): (Chan<E>, Wake<E>) {
    if c.queue == [] then (c, End) else (c.(queue := c.queue[1..]), Got(c.queue[0]))
  }

  /** `co_await next()`: goes on at once if something is queued or the channel is closed. */
  function Next<E>(c: Chan<E>): (Chan<E>, Wake<E>) {
    if c.queue != [] || c.closed then Resume(c) else (c.(waiting := true), NoWake)
  }

  function Push<E>(c: Chan<E>, e: E): (Chan<E>, Wake<E>) {
    var d := c.(queue := c.queue + [e]);
    if d.waiting then Resume(d.(waiting := false)) else (d, NoWake)
  }

  function Close<E>(c: Chan<E>): (Chan<E>, Wake<E>) {
    var d := c.(closed := true);
    if d.waiting then Resume(d.(waiting := false)) else (d, NoWake)
  }

  /** An event wakes a waiting coroutine and leaves the channel empty. */
  lemma PushWakes<E>(c: Chan<E>, e: E)
    requires ChanOk(c) && c.waiting
    ensures Push(c, e) == (Empty(), Got(e))
  {
    assert c.queue + [e] == [e] && [e][1..] == [];
  }

  lemma NextOfOne<E>(e: E)
    ensures Next(Chan([e], false, false)) == (Empty(), Got(e))
  {
    assert [e][1..] == [];
  }

  // ----- The channel object -----

  class EventChannel<E> {
    var queue: seq<E>
    var waiter: bool
    var closed: bool
    /** Events pushed and events handed out since the last reset. */
    ghost var pushed: seq<E>
    ghost var delivered: seq<E>

    ghost predicate Valid()
      reads this
    {
      ChanOk(View()) && pushed == delivered + queue
    }

    ghost function View(): Chan<E>
      reads this
    {
      Chan(queue, waiter, closed)
    }

    constructor ()
      ensures Valid() && View() == Empty() && pushed == delivered == []
    {
      queue, waiter, closed := [], false, false;
      pushed, delivered := [], [];
    }

    method AwaitResume() returns (wake: Wake<E>)
      requires !waiter && pushed == delivered + queue
      modifies `queue, `delivered
      ensures (View(), wake) == Resume(old(View()))
      ensures pushed == delivered + queue
      ensures delivered == old(delivered) + if wake.Got? then [wake.event] else []
      ensures wake == End <==> old(queue) == []
    {
      if queue == [] {
        return End;
      }
      wake := Got(queue[0]);
      delivered := delivered + [queue[0]];
      queue := queue[1..];
    }

    /** The end is only handed out once everything pushed has been. */
    method AwaitNext() returns (wake: Wake<E>)
      requires Valid() && !waiter
      modifies this
      ensures Valid() && (View(), wake) == Next(old(View()))
      ensures pushed == old(pushed)
      ensures wake == End ==> closed && delivered == pushed
    {
      if queue != [] || closed {
        wake := AwaitResume();
      } else {
        waiter := true;
        wake := NoWake;
      }
    }

    /** No lost wakeup: if a coroutine waits, it gets this event now. */
    method PushEvent(e: E) returns (wake: Wake<E>)
      requires Valid()
      modifies this
      ensures Valid() && (View(), wake) == Push(old(View()), e)
      ensures pushed == old(pushed) + [e]
      ensures old(waiter) ==> wake == Got(e) && delivered == pushed
    {
      queue := queue + [e];
      pushed := pushed + [e];
      wake := NoWake;
      if waiter {
        waiter := false;
        wake := AwaitResume();
      }
    }

    method CloseChannel() returns (wake: Wake<E>)
      requires Valid()
      modifies this
      ensures Valid() && (View(), wake) == Close(old(View()))
      ensures pushed == old(pushed)
      ensures if old(waiter) then wake == End && delivered == pushed else wake == NoWake
    {
      closed := true;
      wake := NoWake;
      if waiter {
        waiter := false;
        wake := AwaitResume();
      }
    }

    method Reset()
      modifies this
      ensures Valid() && View() == Empty() && pushed == delivered == []
    {
      queue, closed, waiter := [], false, false;
      pushed, delivered := [], [];
    }
  }

  // ----- Any sequence of operations -----

  datatype Op<E> = NextOp | PushOp(e: E) | CloseOp | ResetOp

  function Apply<E>(c: Chan<E>, op: Op<E>): (Chan<E>, Wake<E>) {
    match op
    case NextOp => if c.waiting then (c, NoWake) else Next(c)
    case PushOp(e) => Push(c, e)
    case CloseOp => Close(c)
    case ResetOp => (Empty(), NoWake)
  }

  /** Every operation: asking hands out the front of the queue, and the end only of an empty and closed
      channel, and otherwise waits; pushing and closing wake a coroutine that waits, and only that. */
  lemma AppliedExactly<E>(c: Chan<E>, e: E)
    requires ChanOk(c)
    ensures !c.waiting && c.queue != [] ==>
              Apply(c, NextOp) == (Chan(c.queue[1..], false, c.closed), Got(c.queue[0]))
    ensures !c.waiting && c.queue == [] && c.closed ==> Apply(c, NextOp) == (c, End)
    ensures !c.waiting && c.queue == [] && !c.closed ==> Apply(c, NextOp) == (Chan([], true, false), NoWake)
    ensures c.waiting ==>
              && Apply(c, NextOp) == (c, NoWake)
              && Apply(c, PushOp(e)) == (Chan([], false, false), Got(e))
              && Apply(c, CloseOp) == (Chan([], false, true), End)
    ensures !c.waiting ==>
              && Apply(c, PushOp(e)) == (Chan(c.queue + [e], false, c.closed), NoWake)
              && Apply(c, CloseOp) == (Chan(c.queue, false, true), NoWake)
    ensures Apply(c, ResetOp) == (Chan([], false, false), NoWake)
  {
    if c.waiting {
      PushWakes(c, e);
    }
  }

  /** The channel and, since the last reset, what was pushed and what the coroutine got. */
  datatype History<E> = History(chan: Chan<E>, pushed: seq<E>, got: seq<E>)

  function Trace<E>(ops: seq<Op<E>>): History<E> {
    if |ops| == 0 then History(Empty(), [], [])
    else
      var h, op := Trace(ops[..|ops| - 1]), ops[|ops| - 1];
      var (c, wake) := Apply(h.chan, op);
      if op.ResetOp? then History(c, [], [])
      else History(c, if op.PushOp? then h.pushed + [op.e] else h.pushed,
                   if wake.Got? then h.got + [wake.event] else h.got)
  }

  /** First in, first out, nothing lost: what was pushed is what the coroutine got followed by what is
      still queued; a waiting coroutine has got everything. */
  lemma {:induction false} FifoNoLostWakeup<E>(ops: seq<Op<E>>)
    ensures ChanOk(Trace(ops).chan)
    ensures Trace(ops).pushed == Trace(ops).got + Trace(ops).chan.queue
    ensures Trace(ops).chan.waiting ==> Trace(ops).pushed == Trace(ops).got
  {
    if |ops| > 0 {
      FifoNoLostWakeup(ops[..|ops| - 1]);
    }
  }

  /** The coroutine sees the end only on a closed channel, after it got everything that was pushed. */
  lemma EndAfterEverything<E>(ops: seq<Op<E>>, op: Op<E>)
    requires Apply(Trace(ops).chan, op).1 == End
    ensures var h := Trace(ops + [op]); h.chan.closed && h.pushed == h.got
  {
    FifoNoLostWakeup(ops);
    FifoNoLostWakeup(ops + [op]);
    assert (ops + [op])[..|ops|] == ops;
  }
}
