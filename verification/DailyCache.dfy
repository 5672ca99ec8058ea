/** `GET /api/stats/daily/{date}` over whole runs: results of past days are cached while the clock
    moves on, sessions come and go, and cached entries expire. */
module DailyCache {
  import opened Options
  import opened Sequences
  import opened SessionStats

  /** The [start, end) timestamps of a day. */
  datatype Day = Day(start: int, end: int)

  /** Turns a `YYYY-MM-DD` string into a day; `None` for a string that is not a date. */
  type Calendar = string -> Option<Day>

  ghost predicate ValidCalendar(cal: Calendar) {
    forall d: string :: cal(d).Some? ==> cal(d).value.start < cal(d).value.end
  }

  datatype State = State(now: int, mpt: seq<Entry>, usr: seq<Entry>, cache: map<string, Report>)

  datatype Reply = BadRequest | Body(report: Report)

  /** What a fresh computation answers for a day, at the current time and with the current logs. */
  function Fresh(s: State, day: Day): Report {
    ReportOf(s.mpt, s.usr, Query(day.start, day.end, s.now), 3600, 24)
  }

  function Answer(cal: Calendar, s: State, date: string): Reply {
    if cal(date).None? then BadRequest
    else if cal(date).value.end <= s.now && date in s.cache then Body(s.cache[date])
    else Body(Fresh(s, cal(date).value))
  }

  // ----- The handler -----

  class StatsServer {
    const cal: Calendar
    var now: int
    var mpt: seq<Entry>
    var usr: seq<Entry>
    var cache: map<string, Report>

    constructor (cal: Calendar, now: int, mpt: seq<Entry>, usr: seq<Entry>)
      ensures this.cal == cal && View() == State(now, mpt, usr, map[])
    {
      this.cal, this.now, this.mpt, this.usr, this.cache := cal, now, mpt, usr, map[];
    }

    ghost function View(): State
      reads this
    {
      State(now, mpt, usr, cache)
    }

    method HandleDaily(date: string) returns (reply: Reply)
      requires ValidCalendar(cal)
      modifies `cache
      ensures reply == Answer(cal, old(View()), date)
      ensures View() == After(cal, old(View()), Ask(date))
    {
      if cal(date).None? {
        return BadRequest;
      }
      var day := cal(date).value;
      var isPast := day.end <= now;
      if isPast {
        if date in cache {
          return Body(cache[date]);
        }
      }
      var report := Summarize(mpt, usr, Query(day.start, day.end, now), 3600, 24);
      if isPast {
        cache := cache[date := report];
      }
      reply := Body(report);
    }
  }

  // ----- Whole runs -----

  datatype Step =
    | Tick(seconds: nat)
    | Connect(isMpt: bool, kind: int, name: string, mount: string)
    | Disconnect(isMpt: bool, index: nat)
    | Ask(date: string)
    | Expire(date: string)

  /** The session log after `index`, if it is an open session, closes now. */
  function Close(log: seq<Entry>, index: nat, now: int): seq<Entry> {
    if index < |log| && log[index].Session? && log[index].disconnect == 0
    then log[index := log[index].(disconnect := now)]
    else log
  }

  function After(cal: Calendar, s: State, step: Step): State {
    match step
    case Tick(d) => s.(now := s.now + d)
    case Connect(true, kind, name, mount) => s.(mpt := s.mpt + [Session(kind, s.now, 0, name, mount)])
    case Connect(false, kind, name, mount) => s.(usr := s.usr + [Session(kind, s.now, 0, name, mount)])
    case Disconnect(true, index) => s.(mpt := Close(s.mpt, index, s.now))
    case Disconnect(false, index) => s.(usr := Close(s.usr, index, s.now))
    case Ask(date) =>
      if cal(date).Some? && cal(date).value.end <= s.now && date !in s.cache
      then s.(cache := s.cache[date := Fresh(s, cal(date).value)])
      else s
    case Expire(date) => s.(cache := s.cache - {date})
  }

  function Run(cal: Calendar, s: State, steps: seq<Step>): State {
    if |steps| == 0 then s else After(cal, Run(cal, s, steps[..|steps| - 1]), steps[|steps| - 1])
  }

  /** Every cached day is over, and its cached report is what recomputing now would give. */
  ghost predicate Coherent(cal: Calendar, s: State) {
    forall date | date in s.cache ::
      cal(date).Some? && cal(date).value.end <= s.now && s.cache[date] == Fresh(s, cal(date).value)
  }

  /** The two sessions look the same from inside a range that was over at both times. */
  predicate SameFrom(e: Entry, e': Entry, end: int, now: int, now': int) {
    || e == e'
    || (&& e.Session? && e'.Session?
        && e' == e.(disconnect := e'.disconnect)
        && e.disconnect == 0 && now >= end && e'.disconnect >= end)
  }

  lemma EntryFrozen(e: Entry, e': Entry, day: Day, now: int, now': int)
    requires day.end <= now && day.end <= now' && day.start < day.end
    requires SameFrom(e, e', day.end, now, now')
    ensures var q, q' := Query(day.start, day.end, now), Query(day.start, day.end, now');
            InRange(e, q) == InRange(e', q')
            && (InRange(e, q) ==> From(e, q) == From(e', q') && Until(e, q) == Until(e', q') && e.name == e'.name)
            && (e.Session? ==> e.kind == e'.kind)
  {}

  /** The log moved on, after the day was over, only by closing open sessions. */
  predicate ClosedLater(log: seq<Entry>, log': seq<Entry>, end: int, now: int, now': int) {
    |log| == |log'| && forall i | 0 <= i < |log| :: SameFrom(log[i], log'[i], end, now, now')
  }

  lemma {:induction false} SumFrozen(log: seq<Entry>, log': seq<Entry>, f: Entry -> int, g: Entry -> int)
    requires |log| == |log'| && forall i | 0 <= i < |log| :: f(log[i]) == g(log'[i])
    ensures SumOver(log, f) == SumOver(log', g)
  {
    if |log| > 0 {
      SumFrozen(log[..|log| - 1], log'[..|log| - 1], f, g);
    }
  }

  /** Closing sessions after the end of a day, and the passing of time, change nothing the day's
      report says about one group. */
  lemma LogFrozen(log: seq<Entry>, log': seq<Entry>, sel: Selector, day: Day, now: int, now': int)
    requires day.start < day.end <= now && day.end <= now'
    requires ClosedLater(log, log', day.end, now, now')
    ensures var q, q' := Query(day.start, day.end, now), Query(day.start, day.end, now');
            Connections(log, sel, q) == Connections(log', sel, q')
            && Duration(log, sel, q) == Duration(log', sel, q')
            && Names(log, sel, q) == Names(log', sel, q')
            && Hourly(log, sel, q, 3600, 24) == Hourly(log', sel, q', 3600, 24)
  {
    var q, q' := Query(day.start, day.end, now), Query(day.start, day.end, now');
    forall i | 0 <= i < |log|
      ensures Selected(log[i], sel, q) == Selected(log'[i], sel, q')
      ensures Selected(log[i], sel, q) ==>
                From(log[i], q) == From(log'[i], q') && Until(log[i], q) == Until(log'[i], q')
                && log[i].name == log'[i].name
    {
      EntryFrozen(log[i], log'[i], day, now, now');
    }
    SumFrozen(log, log', CountWeight(sel, q), CountWeight(sel, q'));
    SumFrozen(log, log', DurationWeight(sel, q), DurationWeight(sel, q'));
    forall b | 0 <= b < 24
      ensures InBucket(log, sel, q, 3600, b) == InBucket(log', sel, q', 3600, b)
    {
      SumFrozen(log, log', BucketWeight(sel, q, 3600, b), BucketWeight(sel, q', 3600, b));
    }
    NamesFrozen(log, log', sel, q, q');
    NamesFrozen(log', log, sel, q', q);
  }

  lemma NamesFrozen(log: seq<Entry>, log': seq<Entry>, sel: Selector, q: Query, q': Query)
    requires |log| == |log'|
    requires forall i | 0 <= i < |log| ::
               Selected(log[i], sel, q) ==> Selected(log'[i], sel, q') && log[i].name == log'[i].name
    ensures Names(log, sel, q) <= Names(log', sel, q')
  {
    forall name | name in Names(log, sel, q)
      ensures name in Names(log', sel, q')
    {
      var e :| e in log && Selected(e, sel, q) && e.name == name;
      var i :| 0 <= i < |log| && log[i] == e;
      assert log'[i] in log';
    }
  }

  /** Sessions that connect after the end of a day do not appear in it. */
  lemma NewcomerInvisible(log: seq<Entry>, e: Entry, sel: Selector, day: Day, now: int)
    requires e.Session? && e.connect >= day.end
    ensures var q := Query(day.start, day.end, now);
            Connections(log + [e], sel, q) == Connections(log, sel, q)
            && Duration(log + [e], sel, q) == Duration(log, sel, q)
            && Names(log + [e], sel, q) == Names(log, sel, q)
            && Hourly(log + [e], sel, q, 3600, 24) == Hourly(log, sel, q, 3600, 24)
  {
    var q := Query(day.start, day.end, now);
    SumsSnoc(log, e, sel, q, 3600, 24);
    NamesSnoc(log, e, sel, q);
  }

  /** One group of one log, before and after a step that cannot touch a day that is over. */
  ghost predicate Grown(log: seq<Entry>, log': seq<Entry>, end: int, now: int, now': int) {
    || ClosedLater(log, log', end, now, now')
    || exists e: Entry :: e.Session? && e.connect >= end && now == now' && log' == log + [e]
  }

  lemma GrownFrozen(log: seq<Entry>, log': seq<Entry>, sel: Selector, day: Day, now: int, now': int)
    requires day.start < day.end <= now && day.end <= now'
    requires Grown(log, log', day.end, now, now')
    ensures var q, q' := Query(day.start, day.end, now), Query(day.start, day.end, now');
            Connections(log, sel, q) == Connections(log', sel, q')
            && Duration(log, sel, q) == Duration(log', sel, q')
            && Names(log, sel, q) == Names(log', sel, q')
            && Hourly(log, sel, q, 3600, 24) == Hourly(log', sel, q', 3600, 24)
  {
    if ClosedLater(log, log', day.end, now, now') {
      LogFrozen(log, log', sel, day, now, now');
    } else {
      var e: Entry :| e.Session? && e.connect >= day.end && now == now' && log' == log + [e];
      NewcomerInvisible(log, e, sel, day, now);
    }
  }

  /** No step changes what a fresh computation says about a day that is over. */
  lemma FreshFrozen(s: State, s': State, day: Day)
    requires day.start < day.end <= s.now && day.end <= s'.now
    requires Grown(s.mpt, s'.mpt, day.end, s.now, s'.now) && Grown(s.usr, s'.usr, day.end, s.now, s'.now)
    ensures Fresh(s, day) == Fresh(s', day)
  {
    GrownFrozen(s.mpt, s'.mpt, PLAIN_MPT, day, s.now, s'.now);
    GrownFrozen(s.mpt, s'.mpt, PULL, day, s.now, s'.now);
    GrownFrozen(s.usr, s'.usr, PLAIN_USR, day, s.now, s'.now);
    GrownFrozen(s.usr, s'.usr, PUSH, day, s.now, s'.now);
  }

  lemma StepsOnlyGrow(cal: Calendar, s: State, step: Step, end: int)
    requires end <= s.now
    ensures var s' := After(cal, s, step);
            s.now <= s'.now
            && Grown(s.mpt, s'.mpt, end, s.now, s'.now) && Grown(s.usr, s'.usr, end, s.now, s'.now)
  {
    var s' := After(cal, s, step);
    if step.Connect? {
      var e := Session(step.kind, s.now, 0, step.name, step.mount);
      assert e.Session? && e.connect >= end;
      assert s'.mpt == s.mpt + [e] || s'.usr == s.usr + [e];
    }
  }

  /** An entry of the cache after a step was there before, or was just computed. */
  lemma CacheAfter(cal: Calendar, s: State, step: Step, date: string)
    requires date in After(cal, s, step).cache
    ensures var s' := After(cal, s, step);
            || (date in s.cache && s'.cache[date] == s.cache[date])
            || (&& cal(date).Some? && cal(date).value.end <= s.now
                && s' == s.(cache := s'.cache) && s'.cache[date] == Fresh(s, cal(date).value))
  {}

  lemma StepKeepsFresh(cal: Calendar, s: State, step: Step, day: Day)
    requires day.start < day.end <= s.now
    ensures s.now <= After(cal, s, step).now
    ensures Fresh(After(cal, s, step), day) == Fresh(s, day)
  {
    StepsOnlyGrow(cal, s, step, day.end);
    FreshFrozen(s, After(cal, s, step), day);
  }

  lemma StepKeepsCoherence(cal: Calendar, s: State, step: Step)
    requires ValidCalendar(cal) && Coherent(cal, s)
    ensures Coherent(cal, After(cal, s, step))
  {
    var s' := After(cal, s, step);
    forall date | date in s'.cache
      ensures cal(date).Some? && cal(date).value.end <= s'.now && s'.cache[date] == Fresh(s', cal(date).value)
    {
      CacheAfter(cal, s, step, date);
      if date in s.cache {
        StepKeepsFresh(cal, s, step, cal(date).value);
      }
    }
  }

  /** Every cached day stays coherent over every run. */
  lemma {:induction false} RunsStayCoherent(cal: Calendar, s: State, steps: seq<Step>)
    requires ValidCalendar(cal) && Coherent(cal, s)
    ensures Coherent(cal, Run(cal, s, steps))
  {
    if |steps| > 0 {
      RunsStayCoherent(cal, s, steps[..|steps| - 1]);
      StepKeepsCoherence(cal, Run(cal, s, steps[..|steps| - 1]), steps[|steps| - 1]);
    }
  }

  /** Nobody can see the cache: in every state reached from an empty cache, the answer for a date is
      what a fresh computation over the current logs at the current time gives. */
  lemma CacheIsInvisible(cal: Calendar, s: State, steps: seq<Step>, date: string)
    requires ValidCalendar(cal) && s.cache == map[]
    ensures var t := Run(cal, s, steps);
            Answer(cal, t, date) == if cal(date).Some? then Body(Fresh(t, cal(date).value)) else BadRequest
  {
    RunsStayCoherent(cal, s, steps);
  }

  /** Whatever happens after the end of a day, the day's report stays what it was. */
  lemma {:induction false} PastDaysNeverChange(cal: Calendar, s: State, steps: seq<Step>, day: Day)
    requires day.start < day.end <= s.now
    ensures s.now <= Run(cal, s, steps).now
    ensures Fresh(Run(cal, s, steps), day) == Fresh(s, day)
  {
    if |steps| > 0 {
      var t := Run(cal, s, steps[..|steps| - 1]);
      PastDaysNeverChange(cal, s, steps[..|steps| - 1], day);
      StepKeepsFresh(cal, t, steps[|steps| - 1], day);
    }
  }

  // ----- Crash recovery -----

  /** On start-up the caster closes sessions that a crash left open, at the time of their last
      update, which lies in the past. */
  function Compensate(s: State, isMpt: bool, index: nat, lastUpdate: int): State {
    if isMpt then s.(mpt := Close(s.mpt, index, lastUpdate)) else s.(usr := Close(s.usr, index, lastUpdate))
  }

  lemma CloseGrows(log: seq<Entry>, index: nat, lastUpdate: int, end: int, now: int)
    requires end <= lastUpdate && end <= now
    ensures Grown(log, Close(log, index, lastUpdate), end, now, now)
  {
    assert ClosedLater(log, Close(log, index, lastUpdate), end, now, now);
  }

  lemma CompensateKeepsFresh(s: State, isMpt: bool, index: nat, lastUpdate: int, day: Day)
    requires day.start < day.end <= s.now && day.end <= lastUpdate
    ensures Fresh(Compensate(s, isMpt, index, lastUpdate), day) == Fresh(s, day)
  {
    CloseGrows(s.mpt, index, lastUpdate, day.end, s.now);
    CloseGrows(s.usr, index, lastUpdate, day.end, s.now);
    assert ClosedLater(s.mpt, s.mpt, day.end, s.now, s.now);
    assert ClosedLater(s.usr, s.usr, day.end, s.now, s.now);
    FreshFrozen(s, Compensate(s, isMpt, index, lastUpdate), day);
  }

  /** Recovery keeps the cache coherent when it closes the session no earlier than the end of any
      cached day. */
  lemma CompensateKeepsCoherence(cal: Calendar, s: State, isMpt: bool, index: nat, lastUpdate: int)
    requires ValidCalendar(cal) && Coherent(cal, s)
    requires forall date | date in s.cache :: cal(date).value.end <= lastUpdate
    ensures Coherent(cal, Compensate(s, isMpt, index, lastUpdate))
  {
    var s' := Compensate(s, isMpt, index, lastUpdate);
    forall date | date in s'.cache
      ensures cal(date).Some? && cal(date).value.end <= s'.now && s'.cache[date] == Fresh(s', cal(date).value)
    {
      CompensateKeepsFresh(s, isMpt, index, lastUpdate, cal(date).value);
    }
  }

  ghost predicate RecoveryHarmless(day: Day, now: int, lastUpdate: int) {
    forall mpt, usr, isMpt: bool, index: nat ::
      Fresh(Compensate(State(now, mpt, usr, map[]), isMpt, index, lastUpdate), day)
      == Fresh(State(now, mpt, usr, map[]), day)
  }

  /** Recovery leaves the report of a day that is over alone, whatever the logs hold, exactly when the
      recovered end is not before the end of the day. */
  lemma HarmlessExactlyAfterTheDay(day: Day, now: int, lastUpdate: int)
    requires day.start < day.end <= now && lastUpdate != 0
    ensures RecoveryHarmless(day, now, lastUpdate) <==> day.end <= lastUpdate
  {
    if day.end <= lastUpdate {
      forall mpt, usr, isMpt: bool, index: nat
        ensures Fresh(Compensate(State(now, mpt, usr, map[]), isMpt, index, lastUpdate), day)
             == Fresh(State(now, mpt, usr, map[]), day)
      {
        CompensateKeepsFresh(State(now, mpt, usr, map[]), isMpt, index, lastUpdate, day);
      }
    } else {
      var e := Session(1, day.start, 0, "base", "");
      var e' := Session(1, day.start, lastUpdate, "base", "");
      var s := State(now, [e], [], map[]);
      var s' := Compensate(s, true, 0, lastUpdate);
      assert s'.mpt == [e'];
      OneSessionReport(s, e, day);
      OneSessionReport(s', e', day);
      assert Fresh(s, day) != Fresh(s', day);
      assert Compensate(State(now, [e], [], map[]), true, 0, lastUpdate) == s';
    }
  }

  /** A log with one ordinary session gives that session's clipped length as the average. */
  lemma OneSessionReport(s: State, e: Entry, day: Day)
    requires s.mpt == [e] && e.Session? && e.kind == 1
    ensures var q := Query(day.start, day.end, s.now);
            if InRange(e, q)
            then Fresh(s, day).mptConnections == 1 && Fresh(s, day).avgMpt == Until(e, q) - From(e, q)
            else Fresh(s, day).mptConnections == 0
  {
    OneSession(e, Query(day.start, day.end, s.now));
  }

  lemma OneSession(e: Entry, q: Query)
    ensures Connections([e], PLAIN_MPT, q) == CountWeight(PLAIN_MPT, q)(e)
    ensures Duration([e], PLAIN_MPT, q) == DurationWeight(PLAIN_MPT, q)(e)
  {
    assert [] + [e] == [e];
    SumOverSnoc([], e, CountWeight(PLAIN_MPT, q));
    SumOverSnoc([], e, DurationWeight(PLAIN_MPT, q));
  }

  /** The day [0, 86400) is cached at 90000 while one session is open; recovery then closes that
      session at 10, inside the cached day, and the cached average no longer matches. */
  lemma CompensateCanBreakCoherence(cal: Calendar)
    requires ValidCalendar(cal) && cal("1970-01-01") == Some(Day(0, 86400))
    ensures var s0 := State(90000, [Session(1, 5, 0, "base", "")], [], map[]);
            var s1 := After(cal, s0, Ask("1970-01-01"));
            Coherent(cal, s1) && !Coherent(cal, Compensate(s1, true, 0, 10))
  {
    var log := [Session(1, 5, 0, "base", "")];
    var log' := [Session(1, 5, 10, "base", "")];
    var s0 := State(90000, log, [], map[]);
    StepKeepsCoherence(cal, s0, Ask("1970-01-01"));
    var s1 := After(cal, s0, Ask("1970-01-01"));
    var s2 := Compensate(s1, true, 0, 10);
    assert s2.mpt == log';
    OneSessionReport(s0, log[0], Day(0, 86400));
    OneSessionReport(s2, log'[0], Day(0, 86400));
    assert s2.cache["1970-01-01"] == Fresh(s0, Day(0, 86400));
  }
}
