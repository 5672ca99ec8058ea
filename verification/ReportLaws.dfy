/** What the numbers of a report are, each said of the two logs alone. */
module ReportLaws {
  import opened Options
  import opened Sequences
  import opened SessionStats
  import Ranking

  // ----- One session -----

  function EndOf(e: Entry, q: Query): int
    requires e.Session?
  {
    if e.disconnect == 0 then q.now else e.disconnect
  }

  /** The session had not ended before the range, and began before its end. */
  predicate Survives(e: Entry, q: Query) {
    e.Session? && q.start <= EndOf(e, q) && e.connect < q.end
  }

  /** Type 5 sets the relayed mount points apart, type 6 the relayed users. */
  lemma GroupsExactly(e: Entry, q: Query)
    ensures Selected(e, PLAIN_MPT, q) <==> Survives(e, q) && e.kind != 5
    ensures Selected(e, PULL, q) <==> Survives(e, q) && e.kind == 5
    ensures Selected(e, PLAIN_USR, q) <==> Survives(e, q) && e.kind != 6
    ensures Selected(e, PUSH, q) <==> Survives(e, q) && e.kind == 6
  {}

  /** A second belongs to the clipped session exactly if it belongs to the session and to the range. */
  lemma ClippedExactly(e: Entry, q: Query, t: int)
    requires e.Session?
    ensures From(e, q) <= t < Until(e, q) <==> q.start <= t < q.end && e.connect <= t < EndOf(e, q)
  {}

  /** The seconds of the session in the range, negative when it ends before it starts. */
  function Seconds(e: Entry, q: Query): int
    requires e.Session?
  {
    (if EndOf(e, q) < q.end then EndOf(e, q) else q.end) - (if e.connect > q.start then e.connect else q.start)
  }

  /** The cast to 32 bits takes away a multiple of 2^32. */
  lemma CastExactly(x: int, k: int)
    requires -0x8000_0000 <= x < 0x8000_0000
    ensures Int32(x + k * 0x1_0000_0000) == x
  {
    var m := 0x1_0000_0000;
    assert (x + 0x8000_0000 + k * m) % m == x + 0x8000_0000;
  }

  // ----- Counting -----

  function CountIf(log: seq<Entry>, p: Entry -> bool): nat {
    if |log| == 0 then 0 else CountIf(log[1..], p) + if p(log[0]) then 1 else 0
  }

  function SecondsIf(log: seq<Entry>, p: Entry -> bool, q: Query): int {
    if |log| == 0 then 0
    else SecondsIf(log[1..], p, q) + if p(log[0]) && log[0].Session? then Seconds(log[0], q) else 0
  }

  lemma {:induction false} SumFromFront(log: seq<Entry>, f: Entry -> int)
    requires |log| > 0
    ensures SumOver(log, f) == f(log[0]) + SumOver(log[1..], f)
  {
    assert log == [log[0]] + log[1..];
    SumOverAppend([log[0]], log[1..], f);
    assert [] + [log[0]] == [log[0]];
    SumOverSnoc([], log[0], f);
  }

  lemma {:induction false} SumIsCount(log: seq<Entry>, p: Entry -> bool, f: Entry -> int)
    requires forall e :: f(e) == if p(e) then 1 else 0
    ensures SumOver(log, f) == CountIf(log, p)
  {
    if |log| > 0 {
      SumFromFront(log, f);
      SumIsCount(log[1..], p, f);
    }
  }

  lemma {:induction false} SumIsSeconds(log: seq<Entry>, p: Entry -> bool, q: Query, f: Entry -> int)
    requires forall e :: f(e) == if p(e) && e.Session? then Seconds(e, q) else 0
    ensures SumOver(log, f) == SecondsIf(log, p, q)
  {
    if |log| > 0 {
      SumFromFront(log, f);
      SumIsSeconds(log[1..], p, q, f);
    }
  }

  // ----- The report -----

  /** How many sessions the report counts, of which kind. */
  lemma ReportCounts(mpt: seq<Entry>, usr: seq<Entry>, q: Query, bucketSecs: int, n: nat)
    requires bucketSecs > 0
    ensures var r := ReportOf(mpt, usr, q, bucketSecs, n);
            && r.start == q.start && r.end == q.end
            && r.mptConnections == CountIf(mpt, (e: Entry) => Survives(e, q) && e.kind != 5)
            && r.usrConnections == CountIf(usr, (e: Entry) => Survives(e, q) && e.kind != 6)
            && r.pullConnections == CountIf(mpt, (e: Entry) => Survives(e, q) && e.kind == 5)
            && r.pushConnections == CountIf(usr, (e: Entry) => Survives(e, q) && e.kind == 6)
            && r.uniqueMounts == |set e | e in mpt && Survives(e, q) && e.kind != 5 && e.name != "" :: e.name|
            && r.uniqueUsers == |set e | e in usr && Survives(e, q) && e.kind != 6 && e.name != "" :: e.name|
  {
    SumIsCount(mpt, (e: Entry) => Survives(e, q) && e.kind != 5, CountWeight(PLAIN_MPT, q));
    SumIsCount(usr, (e: Entry) => Survives(e, q) && e.kind != 6, CountWeight(PLAIN_USR, q));
    SumIsCount(mpt, (e: Entry) => Survives(e, q) && e.kind == 5, CountWeight(PULL, q));
    SumIsCount(usr, (e: Entry) => Survives(e, q) && e.kind == 6, CountWeight(PUSH, q));
    assert Names(mpt, PLAIN_MPT, q) == set e | e in mpt && Survives(e, q) && e.kind != 5 && e.name != "" :: e.name;
    assert Names(usr, PLAIN_USR, q) == set e | e in usr && Survives(e, q) && e.kind != 6 && e.name != "" :: e.name;
  }

  /** `avg` is the quotient of the seconds and the sessions, rounded toward zero, and 0 for no sessions. */
  predicate IsAverage(avg: int, seconds: int, sessions: int) {
    && (sessions == 0 ==> avg == 0)
    && (sessions > 0 && seconds >= 0 ==> avg * sessions <= seconds < (avg + 1) * sessions)
    && (sessions > 0 && seconds < 0 ==> (avg - 1) * sessions < seconds <= avg * sessions)
  }

  lemma AverageExactly(seconds: int, sessions: nat)
    ensures IsAverage(Average(seconds, sessions), seconds, sessions)
  {
    if sessions > 0 {
      var x := if seconds >= 0 then seconds else -seconds;
      var k := x / sessions;
      QuotientAtLeast(x, sessions, k);
      QuotientAtLeast(x, sessions, k + 1);
      assert (-k) * sessions == -(k * sessions) && (-k - 1) * sessions == -((k + 1) * sessions);
    }
  }

  /** Both averages of a report. */
  lemma ReportAverages(mpt: seq<Entry>, usr: seq<Entry>, q: Query, bucketSecs: int, n: nat)
    requires bucketSecs > 0
    ensures var r := ReportOf(mpt, usr, q, bucketSecs, n);
            && IsAverage(r.avgMpt, SecondsIf(mpt, (e: Entry) => Survives(e, q) && e.kind != 5, q), r.mptConnections)
            && IsAverage(r.avgUsr, SecondsIf(usr, (e: Entry) => Survives(e, q) && e.kind != 6, q), r.usrConnections)
  {
    hide Average, IsAverage, Hourly, Peak, Names, TrendOf;
    var m, u := (e: Entry) => Survives(e, q) && e.kind != 5, (e: Entry) => Survives(e, q) && e.kind != 6;
    SumIsSeconds(mpt, m, q, DurationWeight(PLAIN_MPT, q));
    SumIsSeconds(usr, u, q, DurationWeight(PLAIN_USR, q));
    SumIsCount(mpt, m, CountWeight(PLAIN_MPT, q));
    SumIsCount(usr, u, CountWeight(PLAIN_USR, q));
    AverageExactly(SecondsIf(mpt, m, q), CountIf(mpt, m));
    AverageExactly(SecondsIf(usr, u, q), CountIf(usr, u));
  }

  /** The peaks are the largest entries of the trend, or 0. */
  lemma ReportPeaks(mpt: seq<Entry>, usr: seq<Entry>, q: Query, bucketSecs: int, n: nat)
    requires bucketSecs > 0
    ensures var r := ReportOf(mpt, usr, q, bucketSecs, n);
            && |r.trend| == n
            && (forall i | 0 <= i < n ::
                  r.trend[i].mpt <= r.peakMpt && r.trend[i].usr <= r.peakUsr
                  && r.trend[i].pull <= r.peakPull && r.trend[i].push <= r.peakPush)
            && (r.peakMpt == 0 || exists i | 0 <= i < n :: r.trend[i].mpt == r.peakMpt)
            && (r.peakUsr == 0 || exists i | 0 <= i < n :: r.trend[i].usr == r.peakUsr)
            && (r.peakPull == 0 || exists i | 0 <= i < n :: r.trend[i].pull == r.peakPull)
            && (r.peakPush == 0 || exists i | 0 <= i < n :: r.trend[i].push == r.peakPush)
  {
    hide Peak, Average, InBucket, Hourly;
    var hm, hu := Hourly(mpt, PLAIN_MPT, q, bucketSecs, n), Hourly(usr, PLAIN_USR, q, bucketSecs, n);
    var hl, hp := Hourly(mpt, PULL, q, bucketSecs, n), Hourly(usr, PUSH, q, bucketSecs, n);
    var r := ReportOf(mpt, usr, q, bucketSecs, n);
    assert forall i | 0 <= i < n ::
        r.trend[i].mpt == hm[i] && r.trend[i].usr == hu[i] && r.trend[i].pull == hl[i] && r.trend[i].push == hp[i];
    PeakReached(hm, seq(n, i requires 0 <= i < n => r.trend[i].mpt));
    PeakReached(hu, seq(n, i requires 0 <= i < n => r.trend[i].usr));
    PeakReached(hl, seq(n, i requires 0 <= i < n => r.trend[i].pull));
    PeakReached(hp, seq(n, i requires 0 <= i < n => r.trend[i].push));
  }

  lemma PeakReached(h: seq<int>, column: seq<int>)
    requires |column| == |h| && forall i | 0 <= i < |h| :: column[i] == h[i]
    ensures Peak(h) == 0 || exists i | 0 <= i < |h| :: column[i] == Peak(h)
  {
    if Peak(h) != 0 {
      var i :| 0 <= i < |h| && h[i] == Peak(h);
      assert column[i] == Peak(h);
    }
  }

  /** The session is under way in the bucket that starts at `t`, or ends just there. */
  predicate UnderWay(e: Entry, q: Query, t: int, bucketSecs: int) {
    Survives(e, q) && e.connect < t + bucketSecs && t <= EndOf(e, q) && q.start < t + bucketSecs && t <= q.end
  }

  lemma {:induction false} BucketCounts(log: seq<Entry>, sel: Selector, q: Query, bucketSecs: int, n: nat, b: nat, p: Entry -> bool)
    requires q.start < q.end && bucketSecs > 0 && Fits(q, bucketSecs) && b < n
    requires forall e :: p(e) <==> UnderWay(e, q, q.start + b * bucketSecs, bucketSecs) && (e.kind == sel.relayType) == sel.relayed
    ensures Hourly(log, sel, q, bucketSecs, n)[b] == CountIf(log, p)
  {
    BucketMeaning(log, sel, q, bucketSecs, n, b);
    assert (b + 1) * bucketSecs == b * bucketSecs + bucketSecs;
    SumIsCount(log, p, TouchWeight(sel, q, bucketSecs, b));
  }

  /** Row `i` of the trend starts `i` buckets into the range and counts the sessions under way there. */
  lemma ReportTrend(mpt: seq<Entry>, usr: seq<Entry>, q: Query, bucketSecs: int, n: nat, i: nat)
    requires 0 < q.end - q.start < 0x8000_0000 * bucketSecs && bucketSecs > 0 && i < n
    ensures var r, t := ReportOf(mpt, usr, q, bucketSecs, n), q.start + i * bucketSecs;
            && |r.trend| == n && r.trend[i].ts == t
            && r.trend[i].mpt == CountIf(mpt, (e: Entry) => UnderWay(e, q, t, bucketSecs) && e.kind != 5)
            && r.trend[i].usr == CountIf(usr, (e: Entry) => UnderWay(e, q, t, bucketSecs) && e.kind != 6)
            && r.trend[i].pull == CountIf(mpt, (e: Entry) => UnderWay(e, q, t, bucketSecs) && e.kind == 5)
            && r.trend[i].push == CountIf(usr, (e: Entry) => UnderWay(e, q, t, bucketSecs) && e.kind == 6)
  {
    hide Average, InBucket, Peak;
    var t := q.start + i * bucketSecs;
    BucketCounts(mpt, PLAIN_MPT, q, bucketSecs, n, i, (e: Entry) => UnderWay(e, q, t, bucketSecs) && e.kind != 5);
    BucketCounts(usr, PLAIN_USR, q, bucketSecs, n, i, (e: Entry) => UnderWay(e, q, t, bucketSecs) && e.kind != 6);
    BucketCounts(mpt, PULL, q, bucketSecs, n, i, (e: Entry) => UnderWay(e, q, t, bucketSecs) && e.kind == 5);
    BucketCounts(usr, PUSH, q, bucketSecs, n, i, (e: Entry) => UnderWay(e, q, t, bucketSecs) && e.kind == 6);
  }

  // ----- The buckets of an overview -----

  const HOUR := 3600
  const DAY := 24 * HOUR

  /** Hours for at most two days, days for at most 31, and weeks from then on; as many as cover the range, at
      least one, and at most 200. */
  lemma OverviewBuckets(q: Query)
    ensures BucketSecs(q) == if q.end - q.start <= 2 * DAY then HOUR else if q.end - q.start <= 31 * DAY then DAY else 7 * DAY
    ensures q.end <= q.start ==> BucketCount(q) == 1
    ensures 0 < q.end - q.start <= 200 * BucketSecs(q) ==>
              (BucketCount(q) - 1) * BucketSecs(q) < q.end - q.start <= BucketCount(q) * BucketSecs(q)
    ensures 200 * BucketSecs(q) < q.end - q.start < 0x7fff_ffff * BucketSecs(q) ==> BucketCount(q) == 200
  {
    hide BucketSecs, Int32;
    SecsExactly(q);
    var secs := BucketSecs(q);
    var range := if q.end - q.start > 1 then q.end - q.start else 1;
    RoundedUp(range, secs);
    var k := (range + secs - 1) / secs;
    if range < 0x7fff_ffff * secs {
      QuotientAtLeast(range + secs - 1, secs, 0x8000_0000);
      Int32Exact(k);
    }
    QuotientAtLeast(range + secs - 1, secs, 201);
  }

  /** Their number is computed in 32 bits: `k` buckets that cover the range count as the number `c` that the
      cast leaves of `k`, which may be negative. */
  lemma CountExactly(q: Query, k: int, c: int, wraps: int)
    requires var range := if q.end - q.start > 1 then q.end - q.start else 1;
             (k - 1) * BucketSecs(q) < range <= k * BucketSecs(q)
    requires k == c + wraps * 0x1_0000_0000 && -0x8000_0000 <= c < 0x8000_0000
    ensures BucketCount(q) == if c <= 0 then 1 else if c > 200 then 200 else c
  {
    hide BucketSecs, Int32;
    SecsExactly(q);
    var secs := BucketSecs(q);
    var range := if q.end - q.start > 1 then q.end - q.start else 1;
    var x := range + secs - 1;
    assert (k - 1) * secs == k * secs - secs && (k + 1) * secs == k * secs + secs;
    AtLeastOne(k, secs, range);
    QuotientAtLeast(x, secs, k);
    QuotientAtLeast(x, secs, k + 1);
    CastExactly(c, wraps);
  }

  lemma AtLeastOne(k: int, secs: int, range: int)
    requires secs > 0 && 1 <= range <= k * secs
    ensures k >= 1
  {}

  lemma SecsExactly(q: Query)
    ensures BucketSecs(q) == if q.end - q.start <= 2 * DAY then HOUR else if q.end - q.start <= 31 * DAY then DAY else 7 * DAY
  {}

  /** The quotient rounded up is the number of buckets that cover the range. */
  lemma RoundedUp(range: int, secs: int)
    requires range >= 1 && secs > 1
    ensures var k := (range + secs - 1) / secs; k >= 1 && (k - 1) * secs < range <= k * secs && (range == 1 ==> k == 1)
  {
    var x := range + secs - 1;
    var k := x / secs;
    QuotientAtLeast(x, secs, k);
    QuotientAtLeast(x, secs, k + 1);
    QuotientAtLeast(x, secs, 1);
    QuotientAtLeast(x, secs, 2);
    assert (k + 1) * secs == k * secs + secs && (k - 1) * secs == k * secs - secs;
  }

  // ----- The rankings -----

  /** What a row of a ranking says about a name: its seconds in the range, its sessions, its latest end, the
      mount points it used and its types from 1 to 30. */
  lemma RowExactly(s: Ranking.Stat, log: seq<Entry>, name: string, q: Query)
    ensures Ranking.IsGroupStat(s, log, name, q)
       <==> && s.totalDuration == SecondsIf(log, (e: Entry) => Survives(e, q) && e.name == name, q)
            && s.connections == CountIf(log, (e: Entry) => Survives(e, q) && e.name == name)
            && s.lastSeen >= 0
            && (forall e | e in log && Survives(e, q) && e.name == name :: EndOf(e, q) <= s.lastSeen)
            && (s.lastSeen == 0 || exists e :: e in log && Survives(e, q) && e.name == name && EndOf(e, q) == s.lastSeen)
            && s.mounts == (set e | e in log && Survives(e, q) && e.name == name && e.mount != "" :: e.mount)
            && s.types == (set e | e in log && Survives(e, q) && e.name == name && 1 <= e.kind <= 30 :: e.kind)
  {
    var p := (e: Entry) => Survives(e, q) && e.name == name;
    SumIsCount(log, p, Ranking.GroupCountWeight(name, q));
    SumIsSeconds(log, p, q, Ranking.GroupWeight(name, q));
    MountsAndTypes(log, name, q);
    LastSeenExactly(s.lastSeen, log, name, q);
  }

  lemma MountsAndTypes(log: seq<Entry>, name: string, q: Query)
    ensures Ranking.GroupMounts(log, name, q)
         == set e | e in log && Survives(e, q) && e.name == name && e.mount != "" :: e.mount
    ensures Ranking.GroupTypes(log, name, q)
         == set e | e in log && Survives(e, q) && e.name == name && 1 <= e.kind <= 30 :: e.kind
  {}

  lemma LastSeenExactly(t: int, log: seq<Entry>, name: string, q: Query)
    ensures Ranking.IsLastSeen(t, log, name, q)
       <==> && t >= 0
            && (forall e | e in log && Survives(e, q) && e.name == name :: EndOf(e, q) <= t)
            && (t == 0 || exists e :: e in log && Survives(e, q) && e.name == name && EndOf(e, q) == t)
  {
    forall e | e in log
      ensures Ranking.InGroup(e, name, q) <==> Survives(e, q) && e.name == name
      ensures e.Session? ==> ClosedAt(e, q) == EndOf(e, q)
    {}
    if t != 0 && Ranking.IsLastSeen(t, log, name, q) {
      var e :| e in log && Ranking.InGroup(e, name, q) && ClosedAt(e, q) == t;
      assert Survives(e, q) && e.name == name && EndOf(e, q) == t;
    }
  }

  /** Who is ranked, and how many rows there are: 20 unless another number is asked for, and at most 100. */
  lemma RankingExactly(log: seq<Entry>, q: Query, limit: int)
    ensures Ranking.GroupNames(log, q) == set e | e in log && Survives(e, q) && e.name != "" :: e.name
    ensures Ranking.Limit(None) == 20 && (limit <= 0 ==> Ranking.Limit(Some(limit)) == 20)
    ensures 1 <= limit <= 100 ==> Ranking.Limit(Some(limit)) == limit
    ensures limit > 100 ==> Ranking.Limit(Some(limit)) == 100
    ensures forall row: Ranking.Row :: Ranking.ByDuration()(row) == row.stat.totalDuration
  {}
}
