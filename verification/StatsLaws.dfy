/** Laws that relate the numbers of one report to each other: durations against buckets, and peaks
    against connection counts. */
module StatsLaws {
  import opened Sequences
  import opened SessionStats

  /** No session ends before it starts. */
  predicate Ordered(log: seq<Entry>, q: Query) {
    forall e | e in log && e.Session? :: e.connect <= ClosedAt(e, q)
  }

  /** The buckets cover the whole range: the limit of 200 buckets did not cut it short. */
  predicate Uncapped(q: Query) {
    q.end <= q.start + BucketCount(q) * BucketSecs(q)
  }

  /** The number of the first `m` buckets in which `e` is marked. */
  function Marks(e: Entry, q: Query, bucketSecs: int, m: nat): int
    requires e.Session? && bucketSecs > 0
  {
    if m == 0 then 0
    else Marks(e, q, bucketSecs, m - 1) + if Marked(e, q, bucketSecs, m - 1) then 1 else 0
  }

  /** One more bucket covers one more bucket length, in numbers. */
  lemma OneMoreBucket(from: int, until: int, start: int, secs: int, k: nat, before: int, marked: bool)
    requires secs > 0 && from >= start && before >= 0 && secs * before >= Min(until, start + k * secs) - from
    requires marked <==> from < start + (k + 1) * secs && if k == 0 then until > start - secs else until >= start + k * secs
    ensures secs * (before + if marked then 1 else 0) >= Min(until, start + (k + 1) * secs) - from
  {
    assert (k + 1) * secs == k * secs + secs;
    assert secs * (before + 1) == secs * before + secs;
    assert secs * before >= 0;
  }

  lemma {:induction false} MarksCoverOverlap(e: Entry, q: Query, bucketSecs: int, m: nat)
    requires InRange(e, q) && q.start < q.end && bucketSecs > 0 && Fits(q, bucketSecs)
    ensures Marks(e, q, bucketSecs, m) >= 0
    ensures bucketSecs * Marks(e, q, bucketSecs, m) >= Min(Until(e, q), q.start + m * bucketSecs) - From(e, q)
  {
    hide Marked, Fits;
    if m > 0 {
      MarksCoverOverlap(e, q, bucketSecs, m - 1);
      MarkedIsSpanned(e, q, bucketSecs, m - 1);
      OneMoreBucket(From(e, q), Until(e, q), q.start, bucketSecs, m - 1, Marks(e, q, bucketSecs, m - 1),
                    Marked(e, q, bucketSecs, m - 1));
    }
  }

  lemma {:induction false} MarkedSomewhere(e: Entry, q: Query, bucketSecs: int, m: nat)
    requires InRange(e, q) && q.start < q.end && bucketSecs > 0 && Fits(q, bucketSecs)
    requires From(e, q) <= Until(e, q) && From(e, q) < q.start + m * bucketSecs
    ensures Marks(e, q, bucketSecs, m) >= 1
  {
    hide Marked, Fits;
    if m == 0 {
      assert false;
    } else if From(e, q) < q.start + (m - 1) * bucketSecs {
      MarkedSomewhere(e, q, bucketSecs, m - 1);
    } else {
      MarksCoverOverlap(e, q, bucketSecs, m - 1);
      MarkedIsSpanned(e, q, bucketSecs, m - 1);
    }
  }

  function MarksWeight(sel: Selector, q: Query, bucketSecs: int, m: nat): Entry -> int
    requires bucketSecs > 0
  {
    e => if Selected(e, sel, q) then Marks(e, q, bucketSecs, m) else 0
  }

  /** Summing the buckets or summing the marks of each session gives the same number. */
  lemma {:induction false} BucketsAreMarks(log: seq<Entry>, sel: Selector, q: Query, bucketSecs: int, m: nat)
    requires bucketSecs > 0
    ensures SumOver(Hourly(log, sel, q, bucketSecs, m), (x: int) => x)
         == SumOver(log, MarksWeight(sel, q, bucketSecs, m))
  {
    var id := (x: int) => x;
    if m == 0 {
      AllZero(log, MarksWeight(sel, q, bucketSecs, 0));
    } else {
      BucketsAreMarks(log, sel, q, bucketSecs, m - 1);
      var h := Hourly(log, sel, q, bucketSecs, m);
      assert h[..m - 1] == Hourly(log, sel, q, bucketSecs, m - 1);
      SumOverSplit(log, MarksWeight(sel, q, bucketSecs, m),
                   MarksWeight(sel, q, bucketSecs, m - 1), BucketWeight(sel, q, bucketSecs, m - 1));
    }
  }

  function Scaled<T>(f: T -> int, c: int): T -> int {
    x => c * f(x)
  }

  lemma {:induction false} SumOverScale<T>(s: seq<T>, f: T -> int, c: int)
    ensures SumOver(s, Scaled(f, c)) == c * SumOver(s, f)
  {
    if |s| > 0 {
      SumOverScale(s[..|s| - 1], f, c);
      var a, b := SumOver(s[..|s| - 1], f), f(s[|s| - 1]);
      assert c * (a + b) == c * a + c * b;
    }
  }

  lemma {:induction false} SumAtMostPeak(h: seq<int>, peak: int)
    requires forall b | 0 <= b < |h| :: h[b] <= peak
    ensures SumOver(h, (x: int) => x) <= peak * |h|
  {
    if |h| > 0 {
      SumAtMostPeak(h[..|h| - 1], peak);
      assert peak * |h| == peak * (|h| - 1) + peak;
    }
  }

  lemma CoveredFits(q: Query, bucketSecs: int, n: nat)
    requires q.start < q.end && bucketSecs > 0 && n <= 200 && q.end <= q.start + n * bucketSecs
    ensures Fits(q, bucketSecs)
  {
    assert n * bucketSecs <= 200 * bucketSecs;
  }

  /** Clipped time is covered by marked buckets: the total duration is at most one bucket length for
      every mark, when the buckets cover the range. */
  lemma DurationBound(log: seq<Entry>, sel: Selector, q: Query, bucketSecs: int, n: nat)
    requires q.start < q.end && bucketSecs > 0
    requires n <= 200 && q.end <= q.start + n * bucketSecs
    ensures Duration(log, sel, q)
         <= bucketSecs * SumOver(Hourly(log, sel, q, bucketSecs, n), (x: int) => x)
  {
    CoveredFits(q, bucketSecs, n);
    var marks := MarksWeight(sel, q, bucketSecs, n);
    var scaled := Scaled(marks, bucketSecs);
    forall e | e in log
      ensures DurationWeight(sel, q)(e) <= scaled(e)
    {
      if Selected(e, sel, q) {
        MarksCoverOverlap(e, q, bucketSecs, n);
      }
    }
    SumOverMonotone(log, DurationWeight(sel, q), scaled);
    SumOverScale(log, marks, bucketSecs);
    BucketsAreMarks(log, sel, q, bucketSecs, n);
  }

  /** No bucket counts more sessions than connected, and every session is counted somewhere. */
  lemma PeakBounds(log: seq<Entry>, sel: Selector, q: Query, bucketSecs: int, n: nat)
    requires q.start < q.end && bucketSecs > 0 && Ordered(log, q)
    requires n <= 200 && q.end <= q.start + n * bucketSecs
    ensures Peak(Hourly(log, sel, q, bucketSecs, n)) <= Connections(log, sel, q)
    ensures Connections(log, sel, q) <= Peak(Hourly(log, sel, q, bucketSecs, n)) * n
  {
    CoveredFits(q, bucketSecs, n);
    var h := Hourly(log, sel, q, bucketSecs, n);
    forall b | 0 <= b < n
      ensures h[b] <= Connections(log, sel, q)
    {
      SumOverMonotone(log, BucketWeight(sel, q, bucketSecs, b), CountWeight(sel, q));
    }
    SumOverMonotone(log, e => 0, CountWeight(sel, q));
    AllZero(log, e => 0);
    forall e | e in log
      ensures CountWeight(sel, q)(e) <= MarksWeight(sel, q, bucketSecs, n)(e)
    {
      if Selected(e, sel, q) {
        MarkedSomewhere(e, q, bucketSecs, n);
      }
    }
    SumOverMonotone(log, CountWeight(sel, q), MarksWeight(sel, q, bucketSecs, n));
    BucketsAreMarks(log, sel, q, bucketSecs, n);
    SumAtMostPeak(h, Peak(h));
  }

  /** The bounds a reader expects between the numbers of one overview. */
  predicate Bounded(mpt: seq<Entry>, usr: seq<Entry>, q: Query) {
    var n := BucketCount(q);
    var r := ReportOf(mpt, usr, q, BucketSecs(q), n);
    && r.peakMpt <= r.mptConnections <= r.peakMpt * n
    && r.peakUsr <= r.usrConnections <= r.peakUsr * n
    && r.peakPull <= r.pullConnections <= r.peakPull * n
    && r.peakPush <= r.pushConnections <= r.peakPush * n
    && Duration(mpt, PLAIN_MPT, q) <= BucketSecs(q) * SumOver(r.trend, (row: TrendRow) => row.mpt)
    && Duration(usr, PLAIN_USR, q) <= BucketSecs(q) * SumOver(r.trend, (row: TrendRow) => row.usr)
  }

  lemma {:induction false} TrendSums(start: int, bucketSecs: int, hm: seq<int>, hu: seq<int>, hl: seq<int>, hp: seq<int>)
    requires |hm| == |hu| == |hl| == |hp|
    ensures SumOver(TrendOf(start, bucketSecs, hm, hu, hl, hp), (row: TrendRow) => row.mpt) == SumOver(hm, (x: int) => x)
    ensures SumOver(TrendOf(start, bucketSecs, hm, hu, hl, hp), (row: TrendRow) => row.usr) == SumOver(hu, (x: int) => x)
  {
    var k := |hm| - 1;
    if k >= 0 {
      TrendSums(start, bucketSecs, hm[..k], hu[..k], hl[..k], hp[..k]);
      assert TrendOf(start, bucketSecs, hm, hu, hl, hp)[..k]
          == TrendOf(start, bucketSecs, hm[..k], hu[..k], hl[..k], hp[..k]);
    }
  }

  lemma UncappedIsBounded(mpt: seq<Entry>, usr: seq<Entry>, q: Query)
    requires q.start < q.end && Ordered(mpt, q) && Ordered(usr, q) && Uncapped(q)
    ensures Bounded(mpt, usr, q)
  {
    var secs, n := BucketSecs(q), BucketCount(q);
    PeakBounds(mpt, PLAIN_MPT, q, secs, n);
    PeakBounds(mpt, PULL, q, secs, n);
    PeakBounds(usr, PLAIN_USR, q, secs, n);
    PeakBounds(usr, PUSH, q, secs, n);
    DurationBound(mpt, PLAIN_MPT, q, secs, n);
    DurationBound(usr, PLAIN_USR, q, secs, n);
    TrendSums(q.start, secs,
              Hourly(mpt, PLAIN_MPT, q, secs, n), Hourly(usr, PLAIN_USR, q, secs, n),
              Hourly(mpt, PULL, q, secs, n), Hourly(usr, PUSH, q, secs, n));
  }

  /** A session in the first second that the buckets do not cover. */
  function LateSession(q: Query): Entry {
    var t := q.start + BucketCount(q) * BucketSecs(q);
    Session(1, t, if t == 0 then 1 else t, "late", "")
  }

  lemma LateIsNotMarked(q: Query, b: nat)
    requires q.start < q.end && !Uncapped(q) && b < BucketCount(q)
    ensures var e := LateSession(q); Selected(e, PLAIN_MPT, q) && !Marked(e, q, BucketSecs(q), b)
  {
    var secs, n := BucketSecs(q), BucketCount(q);
    var x := n * secs;
    assert x >= secs;
    QuotientAtLeast(x, secs, n);
    QuotientAtLeast(x, secs, n + 1);
    assert (n + 1) * secs == x + secs;
    assert x / secs == n;
    Int32Exact(n);
  }

  lemma CappedIsNotBounded(q: Query)
    requires q.start < q.end && !Uncapped(q)
    ensures Ordered([LateSession(q)], q) && Ordered([], q)
    ensures !Bounded([LateSession(q)], [], q)
  {
    var secs, n, log := BucketSecs(q), BucketCount(q), [LateSession(q)];
    var h := Hourly(log, PLAIN_MPT, q, secs, n);
    LateIsNotMarked(q, 0);
    assert SumOver(log[..0], CountWeight(PLAIN_MPT, q)) == 0;
    assert Connections(log, PLAIN_MPT, q) == 1;
    forall b | 0 <= b < n
      ensures h[b] == 0
    {
      LateIsNotMarked(q, b);
      assert SumOver(log[..0], BucketWeight(PLAIN_MPT, q, secs, b)) == 0;
    }
    assert Peak(h) == 0;
  }

  /** The bounds hold for every pair of logs exactly when the buckets cover the range. */
  lemma BoundedExactlyWhenUncapped(q: Query)
    requires q.start < q.end
    ensures Uncapped(q)
       <==> forall mpt, usr | Ordered(mpt, q) && Ordered(usr, q) :: Bounded(mpt, usr, q)
  {
    if Uncapped(q) {
      forall mpt, usr | Ordered(mpt, q) && Ordered(usr, q)
        ensures Bounded(mpt, usr, q)
      {
        UncappedIsBounded(mpt, usr, q);
      }
    } else {
      CappedIsNotBounded(q);
    }
  }

  /** The buckets cover every range of at most 200 weeks. */
  lemma UncappedRanges(q: Query)
    requires q.start < q.end
    ensures q.end - q.start <= 200 * 7 * 86400 ==> Uncapped(q)
    ensures q.end - q.start > 200 * 7 * 86400 ==> !Uncapped(q)
  {
    var secs := BucketSecs(q);
    var m := q.end - q.start + secs - 1;
    QuotientAtLeast(m, secs, m / secs + 1);
    if q.end - q.start <= 200 * 7 * 86400 {
      assert m / secs <= 200;
      Int32Exact(TruncDiv(m, secs));
    } else {
      assert BucketCount(q) * secs <= 200 * secs;
    }
  }
}
