/** Under which keys the core keeps a relay on record: it is asked to register the relay when a handshake has
    been accepted, and to withdraw it when the relay is stopped or a session ends, but not when it refuses. */
module Registrations {
  import opened Carrier
  import opened Channel
  import opened ChunkCodec
  import opened Draining
  import opened Handshake
  import opened Options
  import opened RelayOutcomes
  import opened RelayPull
  import ConnectBev

  /** The core refuses the relay, which has not been stopped. */
  predicate Refuses(s: Relay, i: Input) {
    s.point.Registering? && !s.stopped && i.Reply? && i.reply != CasterOk
  }

  /** A successful registration ends in a sleep. */
  predicate LeavesSession(s: Relay, i: Input) {
    (s.point.Running? || (s.point.Registering? && i == Reply(CasterOk))) && Step(s, i).point.Asleep?
  }

  /** The relay is stopped, from outside or by its decoder, or a session ends. */
  predicate Withdraws(s: Relay, i: Input) {
    !s.point.Crashed? && (i.Stop? || (!s.stopped && Step(s, i).stopped) || LeavesSession(s, i))
  }

  /** The key of the present registration. */
  function Current(s: Relay): set<string> {
    if (s.point.Registering? || s.point.Running? || s.point.Crashed?) && !s.stopped then {s.connectKey} else {}
  }

  /** What a step makes of the keys left over from earlier registrations. */
  function Leaves(left: set<string>, s: Relay, i: Input): set<string> {
    if Refuses(s, i) then left + {s.connectKey} else if Withdraws(s, i) then left - {s.connectKey} else left
  }

  function LeftBy(s: Relay, inputs: seq<Input>): set<string> {
    if |inputs| == 0 then {}
    else
      var front := inputs[..|inputs| - 1];
      Leaves(LeftBy(s, front), After(s, front), inputs[|inputs| - 1])
  }

  /** The keys on record are those left over and the present one. */
  predicate Books(s: Relay, left: set<string>) {
    s.asked == left + Current(s)
  }

  // ----- Each step -----

  /** The books after a step of a relay that may have been withdrawn by it. */
  predicate Booked(s: Relay, withdrawn: bool, left: set<string>, t: Relay) {
    Books(t, if withdrawn then left - {s.connectKey} else left)
  }

  lemma PostBooks(s: Relay, e: CarrierEvent, left: set<string>)
    requires Sound(s) && Books(s, left)
    ensures var t := Post(s, e);
            Booked(s, s.point.Running? && (t.point.Asleep? || t.stopped), left, t) && (!s.point.Running? ==> t.stopped == s.stopped)
    ensures !s.point.Running? ==> Post(s, e).point == s.point
  {
    hide Decode, Drained, Loop, Owns;
    if s.point.Running? {
      PushWakes(s.events, e);
      NextOfOne(e);
      var u := s.(events := Chan([e], false, false), log := Log(s.log.results, s.log.posted + [e]), point := Active);
      LoopEndsAt(u, [e], ReadsUntil([e], Disconnects));
    }
  }

  lemma StopBooks(s: Relay, left: set<string>)
    requires Sound(s) && Books(s, left) && !s.point.Crashed?
    ensures Booked(s, true, left, StopOutside(s))
  {
    hide Leave, Owns, Drained;
    var (c, wake) := Close(s.events);
    LeaveEnds(Stopping(s).(events := c, point := Active));
  }

  lemma EventBooks(s: Relay, connected: bool, named: string, left: set<string>)
    requires Sound(s) && Books(s, left) && s.pendingEvent && s.armed
    ensures var t := EventCb(s, connected, named); Books(t, left) && t.stopped == s.stopped
  {
    hide Owns, ConnectBev.RecalculateKey, ConnectBev.DelBev;
  }

  lemma ReadBooks(s: Relay, bytes: string, left: set<string>)
    requires Sound(s) && Books(s, left) && s.pendingRead && s.armed
    ensures var t := ReadCb(s, bytes); Books(t, left) && t.stopped == s.stopped
  {
    hide Owns, ConnectBev.DelBev, VerifyResponse;
  }

  lemma ReplyBooks(s: Relay, reply: CasterReply, left: set<string>)
    requires Sound(s) && Books(s, left) && s.pendingRegister
    ensures var t := RegisterCb(s, reply);
            if reply != CasterOk then t.point.Asleep? && t.stopped == s.stopped && Books(t, left + Current(s))
            else Booked(s, t.point.Asleep? || (!s.stopped && t.stopped), left, t)
  {
    hide Owns, Decode, Drained, Loop, ConnectBev.DelBev;
    if reply == CasterOk {
      var u := Resumed(s.(pendingRegister := false), Registering, RegisterEvent(CasterOk));
      var v := StartBev(u.(retryDelay := FIRST_DELAY, sleeps := []));
      LoopEndsAt(v, s.events.queue, ReadsUntil(s.events.queue, Disconnects));
    }
  }

  lemma TimerBooks(s: Relay, dial: ConnectBev.Dial, left: set<string>)
    requires Sound(s) && Books(s, left)
    ensures var t := TimerCb(s, dial); Books(t, left) && t.stopped == s.stopped && (!s.point.Asleep? ==> t == s)
  {
    hide Owns, ConnectBev.NewDialled, ConnectBev.DelBev, ConnectBev.SetTimer, ConnectBev.GetBev;
  }

  lemma ArrivalBooks(s: Relay, bytes: string, left: set<string>)
    requires Sound(s) && Books(s, left) && s.armed && !s.point.Crashed?
    ensures var t := ReadCb(s, bytes);
            Booked(s, s.point.Running? && (t.point.Asleep? || t.stopped), left, t) && (!s.point.Running? ==> t.stopped == s.stopped)
  {
    hide Owns, Post, AfterHandshake;
    if s.pendingRead {
      ReadBooks(s, bytes, left);
    } else {
      PostBooks(s.(recv := s.recv + bytes), BevRead, left);
    }
  }

  lemma ReportBooks(s: Relay, connected: bool, named: string, left: set<string>)
    requires Sound(s) && Books(s, left) && s.armed && !s.point.Crashed?
    ensures var t := EventCb(s, connected, named);
            Booked(s, s.point.Running? && (t.point.Asleep? || t.stopped), left, t) && (!s.point.Running? ==> t.stopped == s.stopped)
  {
    hide Owns, Post, AfterConnect;
    if s.pendingEvent {
      EventBooks(s, connected, named, left);
    } else {
      PostBooks(s, BevEvent(connected), left);
    }
  }

  lemma LateReplyBooks(s: Relay, reply: CasterReply, left: set<string>)
    requires Sound(s) && Books(s, left) && !s.pendingRegister && !s.point.Crashed?
    ensures var t := RegisterCb(s, reply);
            Booked(s, s.point.Running? && (t.point.Asleep? || t.stopped), left, t) && (!s.point.Running? ==> t.stopped == s.stopped)
  {
    hide Owns, Post, AfterRegister;
    PostBooks(s, RegisterEvent(reply), left);
  }

  lemma StepBooks(s: Relay, i: Input, left: set<string>)
    requires Sound(s) && Books(s, left)
    ensures Books(Step(s, i), Leaves(left, s, i))
  {
    hide Owns, TimerCb, EventCb, ReadCb, RegisterCb, StopOutside, Post;
    match i {
      case Fires(dial) => TimerBooks(s, dial, left);
      case Event(connected, named) => if s.armed && !s.point.Crashed? { ReportBooks(s, connected, named, left); }
      case Read(bytes) => if s.armed && !s.point.Crashed? { ArrivalBooks(s, bytes, left); }
      case Reply(reply) =>
        if s.pendingRegister {
          ReplyBooks(s, reply, left);
        } else if !s.point.Crashed? {
          LateReplyBooks(s, reply, left);
        }
      case Stop => if !s.point.Crashed? { StopBooks(s, left); }
      case Neighbour(_) =>
    }
  }

  // ----- Every run -----

  lemma {:induction false} KeysOnRecord(s: Relay, inputs: seq<Input>)
    requires Sound(s) && FreshInputs(s, inputs) && Books(s, {})
    ensures Books(After(s, inputs), LeftBy(s, inputs))
    decreases |inputs|
  {
    hide Step, Sound, Books, Leaves, FreshInput;
    if |inputs| > 0 {
      var front := inputs[..|inputs| - 1];
      KeysOnRecord(s, front);
      StaysSound(s, front);
      StepBooks(After(s, front), inputs[|inputs| - 1], LeftBy(s, front));
    }
  }

  /** At input `j` the registration under the key was refused. */
  predicate RefusedAt(s: Relay, inputs: seq<Input>, key: string, j: nat) {
    j < |inputs| && Refuses(After(s, inputs[..j]), inputs[j]) && After(s, inputs[..j]).connectKey == key
  }

  /** At input `j` the registration under the key was withdrawn. */
  predicate WithdrawnAt(s: Relay, inputs: seq<Input>, key: string, j: nat) {
    j < |inputs| && Withdraws(After(s, inputs[..j]), inputs[j]) && After(s, inputs[..j]).connectKey == key
  }

  /** The registration under the key was refused at input `j`, and not withdrawn since. */
  ghost predicate KeptSince(s: Relay, inputs: seq<Input>, key: string, j: nat) {
    RefusedAt(s, inputs, key, j) && forall l: nat | j < l :: !WithdrawnAt(s, inputs, key, l)
  }

  lemma RefusingIsNotWithdrawing(s: Relay, i: Input)
    requires Suspended(s) && Refuses(s, i)
    ensures !Withdraws(s, i)
  {
    hide ConnectBev.DelBev;
  }

  lemma SamePast(s: Relay, front: seq<Input>, inputs: seq<Input>, key: string, j: nat)
    requires front <= inputs && j < |front|
    ensures RefusedAt(s, inputs, key, j) == RefusedAt(s, front, key, j)
    ensures WithdrawnAt(s, inputs, key, j) == WithdrawnAt(s, front, key, j)
  {
    hide After, Refuses, Withdraws;
    assert inputs[..j] == front[..j];
  }

  lemma KeptOn(s: Relay, front: seq<Input>, inputs: seq<Input>, key: string, j: nat)
    requires |inputs| > 0 && front == inputs[..|inputs| - 1] && j < |front|
    ensures KeptSince(s, inputs, key, j) <==> KeptSince(s, front, key, j) && !WithdrawnAt(s, inputs, key, |front|)
  {
    hide After, Refuses, Withdraws;
    SamePast(s, front, inputs, key, j);
    forall l: nat | l < |front|
      ensures WithdrawnAt(s, inputs, key, l) == WithdrawnAt(s, front, key, l)
    {
      SamePast(s, front, inputs, key, l);
    }
  }

  lemma {:induction false} LeftIsKept(s: Relay, inputs: seq<Input>, key: string)
    requires Sound(s) && FreshInputs(s, inputs)
    ensures key in LeftBy(s, inputs) <==> exists j: nat :: KeptSince(s, inputs, key, j)
    decreases |inputs|
  {
    hide Step, Sound, Refuses, Withdraws, FreshInput, KeptSince;
    if |inputs| == 0 {
      NothingKept(s, key);
    } else {
      var front, i := inputs[..|inputs| - 1], inputs[|inputs| - 1];
      var t := After(s, front);
      LeftIsKept(s, front, key);
      StaysSound(s, front);
      LeavesKey(s, front, inputs, i, key);
      if j: nat :| KeptSince(s, front, key, j) {
        EarlierIndex(s, front, key, j);
        KeptOn(s, front, inputs, key, j);
      }
      if j: nat :| KeptSince(s, inputs, key, j) {
        EarlierIndex(s, inputs, key, j);
        if j < |front| {
          KeptOn(s, front, inputs, key, j);
        }
      }
    }
  }

  lemma NothingKept(s: Relay, key: string)
    ensures !exists j: nat :: KeptSince(s, [], key, j)
  {}

  lemma EarlierIndex(s: Relay, inputs: seq<Input>, key: string, j: nat)
    requires KeptSince(s, inputs, key, j)
    ensures j < |inputs|
  {}

  /** What the last input makes of the key. */
  lemma LeavesKey(s: Relay, front: seq<Input>, inputs: seq<Input>, i: Input, key: string)
    requires |inputs| > 0 && front == inputs[..|inputs| - 1] && i == inputs[|inputs| - 1] && Sound(After(s, front))
    ensures key in LeftBy(s, inputs)
       <==> KeptSince(s, inputs, key, |front|) || (key in LeftBy(s, front) && !WithdrawnAt(s, inputs, key, |front|))
  {
    hide Step, Sound, Refuses, Withdraws;
    var t := After(s, front);
    assert inputs[..|front|] == front;
    SoundIsSuspended(t);
    if Refuses(t, i) {
      RefusingIsNotWithdrawing(t, i);
    }
    assert KeptSince(s, inputs, key, |front|) <==> RefusedAt(s, inputs, key, |front|);
  }

  /** Over every run from the start: the core keeps the relay on record exactly under the key of its present
      registration, and under each key whose registration was refused while the relay was not stopped, unless
      the relay was stopped or a session ended under that key later. */
  lemma RecordsExactly(c: ConnectBev.Conns, dial: ConnectBev.Dial, inputs: seq<Input>, key: string)
    requires Healthy(c) && FreshDial(c, dial) && FreshInputs(Top(Created(c), dial), inputs)
    ensures var start := Top(Created(c), dial);
            key in Run(c, dial, inputs).asked
            <==> key in Current(Run(c, dial, inputs)) || exists j: nat :: KeptSince(start, inputs, key, j)
  {
    hide After, FreshInputs, Sound, Healthy, FreshDial, KeptSince, LeftBy, Current;
    var start := Top(Created(c), dial);
    StartIsSound(c, dial);
    NothingAsked(c, dial);
    KeysOnRecord(start, inputs);
    LeftIsKept(start, inputs, key);
  }

  lemma NothingAsked(c: ConnectBev.Conns, dial: ConnectBev.Dial)
    ensures Books(Top(Created(c), dial), {})
  {
    hide ConnectBev.NewDialled, ConnectBev.SetTimer, ConnectBev.GetBev;
  }

  /** Every successful registration is withdrawn before the next sleep. */
  lemma SessionsAreWithdrawn(s: Relay, i: Input)
    requires Sound(s) && LeavesSession(s, i)
    ensures s.connectKey !in Step(s, i).asked
  {
    hide Step, Sound;
    KeyOfSession(s);
    StepBooks(s, i, s.asked - {s.connectKey});
    CurrentAsleep(Step(s, i));
  }

  lemma KeyOfSession(s: Relay)
    requires Sound(s) && (s.point.Running? || s.point.Registering?)
    ensures Books(s, s.asked - {s.connectKey}) && !s.point.Crashed?
  {}

  lemma CurrentAsleep(s: Relay)
    requires s.point.Asleep?
    ensures Current(s) == {}
  {}

  /** A relay that has finished is on no record under its last key, so that one stopped while it waits for the
      answer leaves nothing behind for it. */
  lemma FinishedIsWithdrawn(c: ConnectBev.Conns, dial: ConnectBev.Dial, inputs: seq<Input>)
    requires Healthy(c) && FreshDial(c, dial) && FreshInputs(Top(Created(c), dial), inputs)
    requires Run(c, dial, inputs).point.Finished?
    ensures Run(c, dial, inputs).connectKey !in Run(c, dial, inputs).asked
  {
    hide Step, Top;
    RunsAreSound(c, dial, inputs);
  }

  // ----- A refused registration that stays -----

  /** The first registration is refused; the next attempt, under another key, does not get through, and the
      relay is stopped and finishes: the first record stays. */
  lemma RefusedStays(s: Relay, key: string, b: ConnectBev.Bev)
    requires Sound(s) && s.point.Registering? && !s.stopped && s.events == Empty() && key != "" && key != s.connectKey
    ensures var asleep := Step(s, Reply(CasterErr));
            var failed := Step(Step(asleep, Fires(ConnectBev.Dialled(key, b))), Event(false, ""));
            var t := Step(Step(failed, Stop), Fires(ConnectBev.Unresolved));
            t.point.Finished? && s.connectKey in t.asked
  {
    var asleep := Step(s, Reply(CasterErr));
    RefusedSleeps(s);
    var dialling := Step(asleep, Fires(ConnectBev.Dialled(key, b)));
    Dials(asleep, key, b);
    var failed := Step(dialling, Event(false, ""));
    Fails(dialling);
    EndsAsleep(failed);
  }

  lemma RefusedSleeps(s: Relay)
    requires Sound(s) && s.point.Registering? && !s.stopped
    ensures var t := Step(s, Reply(CasterErr));
            t.point.Asleep? && t.timers == 1 && !t.stopped && t.asked == s.asked && s.connectKey in t.asked
            && t.events == s.events && t.bev.None? && !t.pendingEvent && !t.pendingRead && !t.pendingRegister
  {
    hide Owns, ConnectBev.DelBev;
  }

  lemma Dials(s: Relay, key: string, b: ConnectBev.Bev)
    requires s.point.Asleep? && s.timers == 1 && !s.stopped && key != ""
    ensures var t := Step(s, Fires(ConnectBev.Dialled(key, b)));
            t.point.Connecting? && t.pendingEvent && t.armed && t.timers == 0 && !t.stopped
            && t.asked == s.asked && t.connectKey == key && t.events == s.events
  {
    hide ConnectBev.GetBev, ConnectBev.SetTimer, ConnectBev.Insert;
  }

  lemma Fails(s: Relay)
    requires s.point.Connecting? && s.pendingEvent && s.armed && s.timers == 0 && !s.stopped
    ensures var t := Step(s, Event(false, ""));
            t.point.Asleep? && t.timers == 1 && !t.stopped && t.asked == s.asked && t.connectKey == s.connectKey && t.events == s.events
  {
    hide ConnectBev.DelBev;
  }

  lemma EndsAsleep(s: Relay)
    requires s.point.Asleep? && s.timers == 1 && s.events == Empty()
    ensures var t := Step(Step(s, Stop), Fires(ConnectBev.Unresolved));
            t.point.Finished? && t.asked == s.asked - {s.connectKey}
  {
    hide ConnectBev.DelBev, ConnectBev.DelTimer;
  }
}
