/** The session statistics of `GET /api/stats/overview` and `GET /api/stats/daily/{date}`: a log of
    sessions folded into counts, clipped durations, per-bucket concurrency and peaks. */
module SessionStats {
  import opened Sequences

  /** A value stored under `LOG:MPT:*` or `LOG:USR:*`. A disconnect time of 0 means "still online". */
  datatype Entry =
    | NotObject
    | Session(kind: int, connect: int, disconnect: int, name: string, mount: string)

  /** The half-open time range [start, end) asked for, and the clock when the answer is computed. */
  datatype Query = Query(start: int, end: int, now: int)

  /** Each log holds two groups of sessions: those of its relay type, and the others. */
  datatype Selector = Selector(relayType: int, relayed: bool)

  const TYPE_PULL := 5
  const TYPE_PUSH := 6
  const PLAIN_MPT := Selector(TYPE_PULL, false)
  const PULL := Selector(TYPE_PULL, true)
  const PLAIN_USR := Selector(TYPE_PUSH, false)
  const PUSH := Selector(TYPE_PUSH, true)

  // ----- Meaning of one session -----

  function ClosedAt(e: Entry, q: Query): int
    requires e.Session?
  {
    if e.disconnect == 0 then q.now else e.disconnect
  }

  predicate InRange(e: Entry, q: Query) {
    e.Session? && ClosedAt(e, q) >= q.start && e.connect < q.end
  }

  predicate Selected(e: Entry, sel: Selector, q: Query) {
    InRange(e, q) && (e.kind == sel.relayType) == sel.relayed
  }

  function From(e: Entry, q: Query): int
    requires e.Session?
  {
    Max(e.connect, q.start)
  }

  function Until(e: Entry, q: Query): int
    requires e.Session?
  {
    Min(ClosedAt(e, q), q.end)
  }

  /** The clipped session meets the bucket [start + b*B, start + (b+1)*B); a session that ends
      exactly where a bucket starts still meets it. */
  predicate Touches(e: Entry, q: Query, bucketSecs: int, b: int)
    requires e.Session?
  {
    From(e, q) < q.start + (b + 1) * bucketSecs && Until(e, q) >= q.start + b * bucketSecs
  }

  /** What is left of that when the quotients round toward zero, which differs only for the first bucket of
      an empty range. */
  predicate Spans(e: Entry, q: Query, bucketSecs: int, b: int)
    requires e.Session?
  {
    && From(e, q) < q.start + (b + 1) * bucketSecs
    && if b == 0 then Until(e, q) > q.start - bucketSecs else Until(e, q) >= q.start + b * bucketSecs
  }

  /** The buckets the handler marks: its quotients are cast to 32 bits. */
  predicate Marked(e: Entry, q: Query, bucketSecs: int, b: int)
    requires e.Session? && bucketSecs > 0
  {
    Int32(TruncDiv(From(e, q) - q.start, bucketSecs)) <= b <= Int32(TruncDiv(Until(e, q) - q.start, bucketSecs))
  }

  // ----- Meaning of a log -----

  function CountWeight(sel: Selector, q: Query): Entry -> int {
    e => if Selected(e, sel, q) then 1 else 0
  }

  function DurationWeight(sel: Selector, q: Query): Entry -> int {
    e => if Selected(e, sel, q) then Until(e, q) - From(e, q) else 0
  }

  function BucketWeight(sel: Selector, q: Query, bucketSecs: int, b: int): Entry -> int
    requires bucketSecs > 0
  {
    e => if Selected(e, sel, q) && Marked(e, q, bucketSecs, b) then 1 else 0
  }

  function Connections(log: seq<Entry>, sel: Selector, q: Query): int {
    SumOver(log, CountWeight(sel, q))
  }

  function Duration(log: seq<Entry>, sel: Selector, q: Query): int {
    SumOver(log, DurationWeight(sel, q))
  }

  function InBucket(log: seq<Entry>, sel: Selector, q: Query, bucketSecs: int, b: int): int
    requires bucketSecs > 0
  {
    SumOver(log, BucketWeight(sel, q, bucketSecs, b))
  }

  function Names(log: seq<Entry>, sel: Selector, q: Query): set<string> {
    set e | e in log && Selected(e, sel, q) && e.name != "" :: e.name
  }

  function Hourly(log: seq<Entry>, sel: Selector, q: Query, bucketSecs: int, n: nat): (h: seq<int>)
    requires bucketSecs > 0
    ensures |h| == n
    ensures forall b | 0 <= b < n :: h[b] == InBucket(log, sel, q, bucketSecs, b)
  {
    seq(n, b => InBucket(log, sel, q, bucketSecs, b))
  }

  /** The largest element, or 0 when every element is negative or there is none. */
  function Peak(h: seq<int>): (p: int)
    ensures p >= 0 && forall b | 0 <= b < |h| :: h[b] <= p
    ensures p == 0 || p in h
  {
    if |h| == 0 then 0 else Max(Peak(h[..|h| - 1]), h[|h| - 1])
  }

  // ----- Integer arithmetic of the source -----

  /** C++ integer division: rounds toward zero. */
  function TruncDiv(x: int, y: int): int
    requires y > 0
  {
    if x >= 0 then x / y else -(-x / y)
  }

  /** `static_cast<int>` of a 64-bit value. */
  function Int32(x: int): int {
    (x + 0x8000_0000) % 0x1_0000_0000 - 0x8000_0000
  }

  /** Every quotient the handlers cast to `int` fits in 32 bits. */
  predicate Fits(q: Query, bucketSecs: int) {
    -0x8000_0000 * bucketSecs < q.end - q.start < 0x8000_0000 * bucketSecs
  }

  lemma Int32Exact(x: int)
    requires -0x8000_0000 <= x < 0x8000_0000
    ensures Int32(x) == x
  {}

  lemma TruncDivAtLeast(x: int, y: int, b: int)
    requires y > 0 && b >= 0
    ensures b <= TruncDiv(x, y) <==> (if b == 0 then x > -y else x >= b * y)
  {
    if x >= 0 {
      QuotientAtLeast(x, y, b);
    } else {
      QuotientAtLeast(-x, y, 1);
    }
  }

  lemma QuotientAtLeast(x: int, y: int, b: int)
    requires y > 0 && x >= 0 && b >= 0
    ensures b <= x / y <==> x >= b * y
  {
    var k := x / y;
    assert x == k * y + x % y;
    if b <= k {
      assert b * y <= k * y;
    } else {
      assert (k + 1) * y <= b * y;
    }
  }

  lemma QuotientBelow(x: int, y: int, k: int)
    requires y > 0 && k > 0 && 0 <= x < k * y
    ensures 0 <= x / y < k
  {
    QuotientAtLeast(x, y, k);
    QuotientAtLeast(x, y, 0);
  }

  lemma QuotientBounds(x: int, y: int, k: int)
    requires y > 0 && k > 0 && -(k * y) < x < k * y
    ensures -k < TruncDiv(x, y) < k
  {
    QuotientBelow(if x >= 0 then x else -x, y, k);
  }

  // ----- The reports -----

  datatype TrendRow = TrendRow(ts: int, mpt: int, usr: int, pull: int, push: int)

  datatype Report = Report(
    start: int, end: int,
    mptConnections: int, usrConnections: int, pullConnections: int, pushConnections: int,
    peakMpt: int, peakUsr: int, peakPull: int, peakPush: int,
    avgMpt: int, avgUsr: int,
    uniqueMounts: int, uniqueUsers: int,
    trend: seq<TrendRow>)

  function Average(total: int, connections: int): int {
    if connections > 0 then TruncDiv(total, connections) else 0
  }

  /** What a report says about the two logs. */
  function ReportOf(mpt: seq<Entry>, usr: seq<Entry>, q: Query, bucketSecs: int, n: nat): Report
    requires bucketSecs > 0
  {
    var hm := Hourly(mpt, PLAIN_MPT, q, bucketSecs, n);
    var hu := Hourly(usr, PLAIN_USR, q, bucketSecs, n);
    var hl := Hourly(mpt, PULL, q, bucketSecs, n);
    var hp := Hourly(usr, PUSH, q, bucketSecs, n);
    var cm := Connections(mpt, PLAIN_MPT, q);
    var cu := Connections(usr, PLAIN_USR, q);
    Report(q.start, q.end, cm, cu, Connections(mpt, PULL, q), Connections(usr, PUSH, q),
           Peak(hm), Peak(hu), Peak(hl), Peak(hp),
           Average(Duration(mpt, PLAIN_MPT, q), cm), Average(Duration(usr, PLAIN_USR, q), cu),
           |Names(mpt, PLAIN_MPT, q)|, |Names(usr, PLAIN_USR, q)|,
           TrendOf(q.start, bucketSecs, hm, hu, hl, hp))
  }

  function TrendOf(start: int, bucketSecs: int, hm: seq<int>, hu: seq<int>, hl: seq<int>, hp: seq<int>)
    : (rows: seq<TrendRow>)
    requires |hm| == |hu| == |hl| == |hp|
  {
    seq(|hm|, i requires 0 <= i < |hm| => TrendRow(start + i * bucketSecs, hm[i], hu[i], hl[i], hp[i]))
  }

  // ----- The handlers -----

  /** The running totals of one group of sessions. */
  class Tally {
    var connections: int
    var duration: int
    var names: set<string>
    const hourly: array<int>

    constructor (n: nat)
      ensures connections == 0 && duration == 0 && names == {}
      ensures fresh(hourly) && hourly.Length == n && hourly[..] == seq(n, _ => 0)
    {
      connections, duration, names := 0, 0, {};
      hourly := new int[n](_ => 0);
    }

    /** This tally is what `log` adds up to. */
    ghost predicate Holds(log: seq<Entry>, sel: Selector, q: Query, bucketSecs: int)
      requires bucketSecs > 0
      reads this, hourly
    {
      && connections == Connections(log, sel, q)
      && (!sel.relayed ==> duration == Duration(log, sel, q) && names == Names(log, sel, q))
      && hourly[..] == Hourly(log, sel, q, bucketSecs, hourly.Length)
    }

    lemma HoldsNothing(sel: Selector, q: Query, bucketSecs: int)
      requires bucketSecs > 0 && connections == 0 && duration == 0 && names == {}
      requires hourly[..] == seq(hourly.Length, _ => 0)
      ensures Holds([], sel, q, bucketSecs)
    {
      assert hourly[..] == Hourly([], sel, q, bucketSecs, hourly.Length);
    }

    /** Adds 1 to every bucket the clipped session is marked in. Every index written is in range,
        whatever the times are. */
    method Mark(e: Entry, q: Query, bucketSecs: int)
      requires InRange(e, q) && bucketSecs > 0 && 0 < hourly.Length <= 200
      modifies hourly
      ensures forall b | 0 <= b < hourly.Length ::
                hourly[b] == old(hourly[b]) + if Marked(e, q, bucketSecs, b) then 1 else 0
    {
      var n := hourly.Length;
      var bucketBegin := Int32(TruncDiv(From(e, q) - q.start, bucketSecs));
      var bucketEnd := Int32(TruncDiv(Until(e, q) - q.start, bucketSecs));
      bucketBegin := Max(0, bucketBegin);
      bucketEnd := Min(n - 1, bucketEnd);
      var b := bucketBegin;
      while b <= bucketEnd
        invariant bucketBegin <= b
        invariant b <= bucketEnd + 1 || b == bucketBegin
        invariant forall k | 0 <= k < n ::
            hourly[k] == old(hourly[k]) + if bucketBegin <= k < b then 1 else 0
        decreases bucketEnd - b
      {
        hourly[b] := hourly[b] + 1;
        b := b + 1;
      }
    }

    /** One iteration of the log loop for the group this session belongs to. */
    method Add(e: Entry, q: Query, bucketSecs: int, relayed: bool)
      requires InRange(e, q) && bucketSecs > 0 && 0 < hourly.Length <= 200
      modifies this, hourly
      ensures connections == old(connections) + 1
      ensures duration == old(duration) + if relayed then 0 else Until(e, q) - From(e, q)
      ensures names == old(names) + if relayed || e.name == "" then {} else {e.name}
      ensures forall b | 0 <= b < hourly.Length ::
                hourly[b] == old(hourly[b]) + if Marked(e, q, bucketSecs, b) then 1 else 0
    {
      connections := connections + 1;
      if !relayed {
        if e.name != "" {
          names := names + {e.name};
        }
        duration := duration + (Until(e, q) - From(e, q));
      }
      Mark(e, q, bucketSecs);
    }
  }

  lemma CastsExact(e: Entry, q: Query, bucketSecs: int)
    requires InRange(e, q) && bucketSecs > 0 && Fits(q, bucketSecs)
    ensures Int32(TruncDiv(From(e, q) - q.start, bucketSecs)) == TruncDiv(From(e, q) - q.start, bucketSecs)
    ensures Int32(TruncDiv(Until(e, q) - q.start, bucketSecs)) == TruncDiv(Until(e, q) - q.start, bucketSecs)
  {
    QuotientBounds(From(e, q) - q.start, bucketSecs, 0x8000_0000);
    QuotientBounds(Until(e, q) - q.start, bucketSecs, 0x8000_0000);
    Int32Exact(TruncDiv(From(e, q) - q.start, bucketSecs));
    Int32Exact(TruncDiv(Until(e, q) - q.start, bucketSecs));
  }

  /** Dividing the clipped ends by the bucket size finds exactly the buckets that the session spans. */
  lemma MarkedByDivision(e: Entry, q: Query, bucketSecs: int, b: int)
    requires InRange(e, q) && bucketSecs > 0 && b >= 0
    ensures Spans(e, q, bucketSecs, b)
       <==> TruncDiv(From(e, q) - q.start, bucketSecs) <= b <= TruncDiv(Until(e, q) - q.start, bucketSecs)
  {
    TruncDivAtLeast(From(e, q) - q.start, bucketSecs, b + 1);
    TruncDivAtLeast(Until(e, q) - q.start, bucketSecs, b);
  }

  lemma MarkedIsSpanned(e: Entry, q: Query, bucketSecs: int, b: int)
    requires InRange(e, q) && bucketSecs > 0 && Fits(q, bucketSecs) && b >= 0
    ensures Marked(e, q, bucketSecs, b) <==> Spans(e, q, bucketSecs, b)
  {
    CastsExact(e, q, bucketSecs);
    MarkedByDivision(e, q, bucketSecs, b);
  }

  /** For a non-empty range that fits, the marked buckets are the ones the session touches. */
  lemma MarkedIsTouched(e: Entry, q: Query, bucketSecs: int, b: int)
    requires InRange(e, q) && q.start < q.end && bucketSecs > 0 && Fits(q, bucketSecs) && b >= 0
    ensures Marked(e, q, bucketSecs, b) <==> Touches(e, q, bucketSecs, b)
  {
    MarkedIsSpanned(e, q, bucketSecs, b);
  }

  lemma NamesSnoc(log: seq<Entry>, e: Entry, sel: Selector, q: Query)
    ensures Names(log + [e], sel, q)
         == Names(log, sel, q) + if Selected(e, sel, q) && e.name != "" then {e.name} else {}
  {
    forall x | x in log + [e]
      ensures x in log || x == e
    {}
    assert e in log + [e];
    forall x | x in log
      ensures x in log + [e]
    {}
  }

  /** A tally that held for `log` and was given `e` exactly when `e` is selected holds for `log + [e]`. */
  lemma SumsSnoc(log: seq<Entry>, e: Entry, sel: Selector, q: Query, bucketSecs: int, n: nat)
    requires bucketSecs > 0
    ensures Connections(log + [e], sel, q)
         == Connections(log, sel, q) + if Selected(e, sel, q) then 1 else 0
    ensures Duration(log + [e], sel, q)
         == Duration(log, sel, q) + if Selected(e, sel, q) then Until(e, q) - From(e, q) else 0
    ensures forall b | 0 <= b < n ::
              Hourly(log + [e], sel, q, bucketSecs, n)[b]
              == Hourly(log, sel, q, bucketSecs, n)[b]
                 + if Selected(e, sel, q) && Marked(e, q, bucketSecs, b) then 1 else 0
  {
    SumOverSnoc(log, e, CountWeight(sel, q));
    SumOverSnoc(log, e, DurationWeight(sel, q));
    forall b | 0 <= b < n
      ensures InBucket(log + [e], sel, q, bucketSecs, b)
           == InBucket(log, sel, q, bucketSecs, b)
              + if Selected(e, sel, q) && Marked(e, q, bucketSecs, b) then 1 else 0
    {
      SumOverSnoc(log, e, BucketWeight(sel, q, bucketSecs, b));
    }
  }

  /** The `process_logs` loop over one of the two logs. */
  method ProcessLogs(log: seq<Entry>, relayType: int, q: Query, bucketSecs: int, plain: Tally, relay: Tally)
    requires bucketSecs > 0 && plain != relay && plain.hourly != relay.hourly
    requires plain.hourly.Length == relay.hourly.Length && 0 < plain.hourly.Length <= 200
    requires plain.Holds([], Selector(relayType, false), q, bucketSecs)
    requires relay.Holds([], Selector(relayType, true), q, bucketSecs)
    modifies plain, relay, plain.hourly, relay.hourly
    ensures plain.Holds(log, Selector(relayType, false), q, bucketSecs)
    ensures relay.Holds(log, Selector(relayType, true), q, bucketSecs)
  {
    for i := 0 to |log|
      invariant plain.Holds(log[..i], Selector(relayType, false), q, bucketSecs)
      invariant relay.Holds(log[..i], Selector(relayType, true), q, bucketSecs)
    {
      var e := log[i];
      assert log[..i + 1] == log[..i] + [e];
      SumsSnoc(log[..i], e, Selector(relayType, false), q, bucketSecs, plain.hourly.Length);
      SumsSnoc(log[..i], e, Selector(relayType, true), q, bucketSecs, plain.hourly.Length);
      NamesSnoc(log[..i], e, Selector(relayType, false), q);
      if e.NotObject? || ClosedAt(e, q) < q.start || e.connect >= q.end {
        assert Hourly(log[..i + 1], Selector(relayType, false), q, bucketSecs, plain.hourly.Length)
            == Hourly(log[..i], Selector(relayType, false), q, bucketSecs, plain.hourly.Length);
        assert Hourly(log[..i + 1], Selector(relayType, true), q, bucketSecs, plain.hourly.Length)
            == Hourly(log[..i], Selector(relayType, true), q, bucketSecs, plain.hourly.Length);
      } else if e.kind == relayType {
        relay.Add(e, q, bucketSecs, true);
        assert Hourly(log[..i + 1], Selector(relayType, false), q, bucketSecs, plain.hourly.Length)
            == Hourly(log[..i], Selector(relayType, false), q, bucketSecs, plain.hourly.Length);
      } else {
        plain.Add(e, q, bucketSecs, false);
        assert Hourly(log[..i + 1], Selector(relayType, true), q, bucketSecs, plain.hourly.Length)
            == Hourly(log[..i], Selector(relayType, true), q, bucketSecs, plain.hourly.Length);
      }
    }
    assert log[..|log|] == log;
  }

  /** Fresh vectors and counters for one log, filled by `ProcessLogs`. */
  method TallyLog(log: seq<Entry>, relayType: int, q: Query, bucketSecs: int, n: nat)
    returns (plain: Tally, relay: Tally)
    requires bucketSecs > 0 && 0 < n <= 200
    ensures plain.hourly.Length == relay.hourly.Length == n
    ensures plain.Holds(log, Selector(relayType, false), q, bucketSecs)
    ensures relay.Holds(log, Selector(relayType, true), q, bucketSecs)
  {
    plain := new Tally(n);
    relay := new Tally(n);
    plain.HoldsNothing(Selector(relayType, false), q, bucketSecs);
    relay.HoldsNothing(Selector(relayType, true), q, bucketSecs);
    ProcessLogs(log, relayType, q, bucketSecs, plain, relay);
  }

  method PeakOf(hourly: array<int>) returns (peak: int)
    ensures peak == Peak(hourly[..])
  {
    peak := 0;
    for i := 0 to hourly.Length
      invariant peak == Peak(hourly[..i])
    {
      assert hourly[..i + 1][..i] == hourly[..i];
      if hourly[i] > peak {
        peak := hourly[i];
      }
    }
    assert hourly[..hourly.Length] == hourly[..];
  }

  method Trend(start: int, bucketSecs: int, hm: array<int>, hu: array<int>, hl: array<int>, hp: array<int>)
    returns (rows: seq<TrendRow>)
    requires hm.Length == hu.Length == hl.Length == hp.Length
    ensures rows == TrendOf(start, bucketSecs, hm[..], hu[..], hl[..], hp[..])
  {
    rows := [];
    for i := 0 to hm.Length
      invariant |rows| == i
      invariant rows == TrendOf(start, bucketSecs, hm[..], hu[..], hl[..], hp[..])[..i]
    {
      rows := rows + [TrendRow(start + i * bucketSecs, hm[i], hu[i], hl[i], hp[i])];
    }
  }

  /** Both handlers after they have chosen a range and a bucket size. */
  method Summarize(mpt: seq<Entry>, usr: seq<Entry>, q: Query, bucketSecs: int, n: nat) returns (r: Report)
    requires bucketSecs > 0 && 0 < n <= 200
    ensures r == ReportOf(mpt, usr, q, bucketSecs, n)
  {
    var tm, tl := TallyLog(mpt, TYPE_PULL, q, bucketSecs, n);
    var tu, tp := TallyLog(usr, TYPE_PUSH, q, bucketSecs, n);
    var pm := PeakOf(tm.hourly);
    var pu := PeakOf(tu.hourly);
    var pl := PeakOf(tl.hourly);
    var pp := PeakOf(tp.hourly);
    var trend := Trend(q.start, bucketSecs, tm.hourly, tu.hourly, tl.hourly, tp.hourly);
    r := Report(q.start, q.end, tm.connections, tu.connections, tl.connections, tp.connections,
                pm, pu, pl, pp,
                Average(tm.duration, tm.connections), Average(tu.duration, tu.connections),
                |tm.names|, |tu.names|, trend);
  }

  /** The bucket size and the number of buckets of an overview. */
  function BucketSecs(q: Query): (secs: int)
    ensures secs > 0
  {
    var range := Max(1, q.end - q.start);
    if range <= 48 * 3600 then 3600 else if range <= 31 * 86400 then 86400 else 7 * 86400
  }

  function BucketCount(q: Query): (n: nat)
    ensures 0 < n <= 200
  {
    var secs := BucketSecs(q);
    var n := Int32(TruncDiv(Max(1, q.end - q.start) + secs - 1, secs));
    if n <= 0 then 1 else if n > 200 then 200 else n
  }

  method Overview(mpt: seq<Entry>, usr: seq<Entry>, q: Query) returns (r: Report)
    ensures r == ReportOf(mpt, usr, q, BucketSecs(q), BucketCount(q))
  {
    r := Summarize(mpt, usr, q, BucketSecs(q), BucketCount(q));
  }

  // ----- The simple meaning of a bucket -----

  function TouchWeight(sel: Selector, q: Query, bucketSecs: int, b: int): Entry -> int {
    e => if Selected(e, sel, q) && Touches(e, q, bucketSecs, b) then 1 else 0
  }

  /** For a non-empty range that fits, each bucket counts the selected sessions that touch it. */
  lemma BucketMeaning(log: seq<Entry>, sel: Selector, q: Query, bucketSecs: int, n: nat, b: nat)
    requires q.start < q.end && bucketSecs > 0 && Fits(q, bucketSecs) && b < n
    ensures Hourly(log, sel, q, bucketSecs, n)[b] == SumOver(log, TouchWeight(sel, q, bucketSecs, b))
  {
    var f := BucketWeight(sel, q, bucketSecs, b);
    var g := TouchWeight(sel, q, bucketSecs, b);
    forall e | e in log
      ensures f(e) == g(e)
    {
      if InRange(e, q) {
        MarkedIsTouched(e, q, bucketSecs, b);
      }
    }
    SumOverSame(log, f, g);
  }

  /** A session of the selected group from the start of the range to its 2^31st bucket. */
  function EndlessSession(sel: Selector, q: Query, bucketSecs: int): Entry {
    var end := q.start + 0x8000_0000 * bucketSecs;
    Session(if sel.relayed then sel.relayType else sel.relayType + 1, q.start, if end == 0 then 1 else end, "", "")
  }

  /** Its last bucket becomes negative in the cast, and it is marked nowhere. */
  lemma EndlessIsNotMarked(sel: Selector, q: Query, bucketSecs: int)
    requires bucketSecs > 0 && q.end - q.start >= 0x8000_0000 * bucketSecs
    ensures var e := EndlessSession(sel, q, bucketSecs);
            Selected(e, sel, q) && Touches(e, q, bucketSecs, 0) && !Marked(e, q, bucketSecs, 0)
  {
    var e := EndlessSession(sel, q, bucketSecs);
    var x := Until(e, q) - q.start;
    assert 0x8000_0000 * bucketSecs <= x <= 0x8000_0000 * bucketSecs + 1;
    QuotientAtLeast(x, bucketSecs, 0x8000_0000);
    QuotientAtLeast(x, bucketSecs, 0x8000_0002);
    assert 0x8000_0002 * bucketSecs == 0x8000_0000 * bucketSecs + 2 * bucketSecs;
  }

  /** The buckets of every log count the sessions that touch them exactly if the range fits. */
  lemma BucketsCountExactlyIfFit(sel: Selector, q: Query, bucketSecs: int, n: nat)
    requires q.start < q.end && bucketSecs > 0 && n > 0
    ensures (forall log: seq<Entry>, b: nat | b < n ::
               Hourly(log, sel, q, bucketSecs, n)[b] == SumOver(log, TouchWeight(sel, q, bucketSecs, b)))
       <==> Fits(q, bucketSecs)
  {
    if Fits(q, bucketSecs) {
      forall log: seq<Entry>, b: nat | b < n
        ensures Hourly(log, sel, q, bucketSecs, n)[b] == SumOver(log, TouchWeight(sel, q, bucketSecs, b))
      {
        BucketMeaning(log, sel, q, bucketSecs, n, b);
      }
    } else {
      var e := EndlessSession(sel, q, bucketSecs);
      EndlessIsNotMarked(sel, q, bucketSecs);
      SumOverSnoc([], e, BucketWeight(sel, q, bucketSecs, 0));
      SumOverSnoc([], e, TouchWeight(sel, q, bucketSecs, 0));
      assert [] + [e] == [e];
      assert Hourly([e], sel, q, bucketSecs, n)[0] == 0 && SumOver([e], TouchWeight(sel, q, bucketSecs, 0)) == 1;
    }
  }

  /** A report does not depend on the order in which the store lists the sessions. */
  lemma ReportOrderFree(mpt: seq<Entry>, usr: seq<Entry>, mpt': seq<Entry>, usr': seq<Entry>,
                        q: Query, bucketSecs: int, n: nat)
    requires bucketSecs > 0 && multiset(mpt) == multiset(mpt') && multiset(usr) == multiset(usr')
    ensures ReportOf(mpt, usr, q, bucketSecs, n) == ReportOf(mpt', usr', q, bucketSecs, n)
  {
    LogOrderFree(mpt, mpt', PLAIN_MPT, q, bucketSecs, n);
    LogOrderFree(mpt, mpt', PULL, q, bucketSecs, n);
    LogOrderFree(usr, usr', PLAIN_USR, q, bucketSecs, n);
    LogOrderFree(usr, usr', PUSH, q, bucketSecs, n);
  }

  lemma LogOrderFree(log: seq<Entry>, log': seq<Entry>, sel: Selector, q: Query, bucketSecs: int, n: nat)
    requires bucketSecs > 0 && multiset(log) == multiset(log')
    ensures Connections(log, sel, q) == Connections(log', sel, q)
    ensures Duration(log, sel, q) == Duration(log', sel, q)
    ensures Names(log, sel, q) == Names(log', sel, q)
    ensures Hourly(log, sel, q, bucketSecs, n) == Hourly(log', sel, q, bucketSecs, n)
  {
    SumOverOrderFree(log, log', CountWeight(sel, q));
    SumOverOrderFree(log, log', DurationWeight(sel, q));
    forall b | 0 <= b < n
      ensures InBucket(log, sel, q, bucketSecs, b) == InBucket(log', sel, q, bucketSecs, b)
    {
      SumOverOrderFree(log, log', BucketWeight(sel, q, bucketSecs, b));
    }
    assert forall e :: e in log <==> e in multiset(log);
    assert forall e :: e in log' <==> e in multiset(log');
  }
}
