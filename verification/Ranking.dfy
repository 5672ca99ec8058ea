/** The mount-point and user rankings: sessions grouped by name, durations clipped to the range and
    added up, and the longest totals listed first. */
module Ranking {
  import opened Options
  import opened Sequences
  import opened SessionStats

  datatype Stat = Stat(totalDuration: int, connections: int, lastSeen: int,
                       mounts: set<string>, types: set<int>)

  datatype Row = Row(name: string, stat: Stat)

  // ----- Meaning of one group -----

  predicate InGroup(e: Entry, name: string, q: Query) {
    InRange(e, q) && e.name == name
  }

  predicate Named(e: Entry, q: Query) {
    InRange(e, q) && e.name != ""
  }

  function Overlap(e: Entry, q: Query): int
    requires e.Session?
  {
    Until(e, q) - From(e, q)
  }

  function GroupWeight(name: string, q: Query): Entry -> int {
    e => if InGroup(e, name, q) then Overlap(e, q) else 0
  }

  function GroupCountWeight(name: string, q: Query): Entry -> int {
    e => if InGroup(e, name, q) then 1 else 0
  }

  function NamedWeight(q: Query): Entry -> int {
    e => if Named(e, q) then Overlap(e, q) else 0
  }

  function GroupTotal(log: seq<Entry>, name: string, q: Query): int {
    SumOver(log, GroupWeight(name, q))
  }

  function GroupNames(log: seq<Entry>, q: Query): set<string> {
    set e | e in log && Named(e, q) :: e.name
  }

  function GroupMounts(log: seq<Entry>, name: string, q: Query): set<string> {
    set e | e in log && InGroup(e, name, q) && e.mount != "" :: e.mount
  }

  /** The type numbers that fit in the bit mask. */
  function GroupTypes(log: seq<Entry>, name: string, q: Query): set<int> {
    set e | e in log && InGroup(e, name, q) && 0 < e.kind < 31 :: e.kind
  }

  /** `t` is the latest end among the sessions of the group, and never before 0. */
  ghost predicate IsLastSeen(t: int, log: seq<Entry>, name: string, q: Query) {
    && t >= 0
    && (forall e | e in log && InGroup(e, name, q) :: ClosedAt(e, q) <= t)
    && (t == 0 || exists e :: e in log && InGroup(e, name, q) && ClosedAt(e, q) == t)
  }

  /** `s` is what the sessions of `name` add up to. */
  ghost predicate IsGroupStat(s: Stat, log: seq<Entry>, name: string, q: Query) {
    && s.totalDuration == GroupTotal(log, name, q)
    && s.connections == SumOver(log, GroupCountWeight(name, q))
    && IsLastSeen(s.lastSeen, log, name, q)
    && s.mounts == GroupMounts(log, name, q)
    && s.types == GroupTypes(log, name, q)
  }

  // ----- The handlers -----

  const EMPTY := Stat(0, 0, 0, {}, {})

  /** One more session of the group. */
  function Added(s: Stat, e: Entry, q: Query): Stat
    requires e.Session?
  {
    Stat(s.totalDuration + Overlap(e, q), s.connections + 1, Max(s.lastSeen, ClosedAt(e, q)),
         s.mounts + if e.mount == "" then {} else {e.mount},
         s.types + if 0 < e.kind < 31 then {e.kind} else {})
  }

  method AddSession(s: Stat, e: Entry, q: Query) returns (s': Stat)
    requires InRange(e, q)
    ensures s' == Added(s, e, q)
  {
    s' := s.(totalDuration := s.totalDuration + (Min(ClosedAt(e, q), q.end) - Max(e.connect, q.start)));
    s' := s'.(connections := s'.connections + 1);
    if ClosedAt(e, q) > s'.lastSeen {
      s' := s'.(lastSeen := ClosedAt(e, q));
    }
    if e.mount != "" {
      s' := s'.(mounts := s'.mounts + {e.mount});
    }
    if e.kind > 0 && e.kind < 31 {
      s' := s'.(types := s'.types + {e.kind});
    }
  }

  lemma GroupSnoc(log: seq<Entry>, e: Entry, name: string, q: Query, s: Stat)
    requires IsGroupStat(s, log, name, q)
    ensures !InGroup(e, name, q) ==> IsGroupStat(s, log + [e], name, q)
    ensures InGroup(e, name, q) ==> IsGroupStat(Added(s, e, q), log + [e], name, q)
  {
    SumOverSnoc(log, e, GroupWeight(name, q));
    SumOverSnoc(log, e, GroupCountWeight(name, q));
    forall x
      ensures x in log + [e] <==> x in log || x == e
    {
      InSnoc(log, e, x);
    }
    if s.lastSeen != 0 {
      var w :| w in log && InGroup(w, name, q) && ClosedAt(w, q) == s.lastSeen;
      assert w in log + [e];
    }
    assert e in log + [e];
  }

  lemma InSnoc(log: seq<Entry>, e: Entry, x: Entry)
    ensures x in log + [e] <==> x in log || x == e
  {}

  lemma EmptyGroup(log: seq<Entry>, name: string, q: Query)
    requires name !in GroupNames(log, q) && name != ""
    ensures IsGroupStat(EMPTY, log, name, q)
  {
    forall e | e in log
      ensures !InGroup(e, name, q)
    {
      assert Named(e, q) ==> e.name in GroupNames(log, q);
    }
    AllZero(log, GroupWeight(name, q));
    AllZero(log, GroupCountWeight(name, q));
  }

  /** The map holds one entry per name, each what the sessions of the name add up to. */
  ghost predicate Groups(stats: map<string, Stat>, log: seq<Entry>, q: Query) {
    && stats.Keys == GroupNames(log, q)
    && forall name | name in stats :: IsGroupStat(stats[name], log, name, q)
  }

  /** The entry of a name before its next session. */
  function Entered(stats: map<string, Stat>, name: string): Stat {
    if name in stats then stats[name] else EMPTY
  }

  lemma EnteredIsStat(stats: map<string, Stat>, log: seq<Entry>, name: string, q: Query)
    requires Groups(stats, log, q) && name != ""
    ensures IsGroupStat(Entered(stats, name), log, name, q)
  {
    if name !in stats {
      EmptyGroup(log, name, q);
    }
  }

  lemma GroupsSnoc(stats: map<string, Stat>, log: seq<Entry>, e: Entry, q: Query, s: Stat)
    requires Groups(stats, log, q) && Named(e, q) && s == Entered(stats, e.name)
    ensures Groups(stats[e.name := Added(s, e, q)], log + [e], q)
  {
    EnteredIsStat(stats, log, e.name, q);
    KeysSnoc(log, e, q);
    var now := stats[e.name := Added(s, e, q)];
    forall name | name in now
      ensures IsGroupStat(now[name], log + [e], name, q)
    {
      GroupSnoc(log, e, name, q, if name == e.name then s else stats[name]);
    }
  }

  lemma GroupsSkip(stats: map<string, Stat>, log: seq<Entry>, e: Entry, q: Query)
    requires Groups(stats, log, q) && !Named(e, q)
    ensures Groups(stats, log + [e], q)
  {
    KeysSnoc(log, e, q);
    OtherGroupsSnoc(stats, log, e, q);
    assert "" !in stats;
  }

  /** The loop that fills the `stats` map. */
  method Aggregate(log: seq<Entry>, q: Query) returns (stats: map<string, Stat>)
    ensures Groups(stats, log, q)
  {
    stats := map[];
    for i := 0 to |log|
      invariant Groups(stats, log[..i], q)
    {
      var e := log[i];
      assert log[..i + 1] == log[..i] + [e];
      if e.Session? && ClosedAt(e, q) >= q.start && e.connect < q.end && e.name != "" {
        GroupsSnoc(stats, log[..i], e, q, Entered(stats, e.name));
        var s := AddSession(Entered(stats, e.name), e, q);
        stats := stats[e.name := s];
      } else {
        GroupsSkip(stats, log[..i], e, q);
      }
    }
    assert log[..|log|] == log;
  }

  lemma OtherGroupsSnoc(stats: map<string, Stat>, log: seq<Entry>, e: Entry, q: Query)
    requires forall name | name in stats :: IsGroupStat(stats[name], log, name, q)
    ensures forall name | name in stats && !InGroup(e, name, q) :: IsGroupStat(stats[name], log + [e], name, q)
  {
    forall name | name in stats && !InGroup(e, name, q)
      ensures IsGroupStat(stats[name], log + [e], name, q)
    {
      GroupSnoc(log, e, name, q, stats[name]);
    }
  }

  lemma KeysSnoc(log: seq<Entry>, e: Entry, q: Query)
    ensures GroupNames(log + [e], q) == GroupNames(log, q) + if Named(e, q) then {e.name} else {}
  {
    forall x
      ensures x in log + [e] <==> x in log || x == e
    {
      InSnoc(log, e, x);
    }
    assert e in log + [e];
  }

  /** Copies the map into a vector, one row per key. */
  method Rows(stats: map<string, Stat>) returns (rows: seq<Row>)
    ensures |rows| == |stats.Keys|
    ensures forall i | 0 <= i < |rows| :: rows[i].name in stats && rows[i].stat == stats[rows[i].name]
    ensures forall i, j | 0 <= i < j < |rows| :: rows[i].name != rows[j].name
    ensures forall name | name in stats :: Row(name, stats[name]) in rows
  {
    rows := [];
    var keys := stats.Keys;
    while keys != {}
      invariant keys <= stats.Keys
      invariant |rows| + |keys| == |stats.Keys|
      invariant forall i | 0 <= i < |rows| ::
          rows[i].name in stats && rows[i].name !in keys && rows[i].stat == stats[rows[i].name]
      invariant forall i, j | 0 <= i < j < |rows| :: rows[i].name != rows[j].name
      invariant forall name | name in stats && name !in keys :: Row(name, stats[name]) in rows
      decreases keys
    {
      var k :| k in keys;
      keys := keys - {k};
      rows := rows + [Row(k, stats[k])];
    }
  }

  /** The `limit` parameter: 20 when absent or not positive, at most 100. */
  function Limit(param: Option<int>): (limit: nat)
    ensures 1 <= limit <= 100
  {
    var l := if param.Some? then param.value else 20;
    if l <= 0 then 20 else Min(l, 100)
  }

  function ByDuration(): Row -> int {
    (row: Row) => row.stat.totalDuration
  }

  predicate Listed(stats: map<string, Stat>, name: string, rows: seq<Row>) {
    name in stats ==> Row(name, stats[name]) in rows
  }

  /** The map's entries, longest first. */
  method SortedRows(stats: map<string, Stat>) returns (sorted: seq<Row>)
    ensures |sorted| == |stats.Keys| && Descending(sorted, ByDuration())
    ensures forall i | 0 <= i < |sorted| :: sorted[i].name in stats && sorted[i].stat == stats[sorted[i].name]
    ensures forall i, j | 0 <= i < j < |sorted| :: sorted[i].name != sorted[j].name
    ensures forall name :: Listed(stats, name, sorted)
  {
    var all := Rows(stats);
    sorted := SortDescending(all, ByDuration());
    SamePermuted(all, sorted);
    SamePermutedBack(all, sorted);
  }

  method FirstRows(sorted: seq<Row>, limit: nat) returns (rows: seq<Row>)
    ensures rows == sorted[..Min(limit, |sorted|)]
  {
    rows := [];
    var count := 0;
    while count < |sorted| && count < limit
      invariant 0 <= count <= |sorted| && count <= limit
      invariant rows == sorted[..count]
    {
      rows := rows + [sorted[count]];
      count := count + 1;
    }
  }

  /** Keeps the first `limit` of the sorted entries. */
  method TopRows(stats: map<string, Stat>, limit: nat) returns (rows: seq<Row>)
    ensures |rows| == Min(limit, |stats.Keys|)
    ensures Descending(rows, ByDuration())
    ensures forall i | 0 <= i < |rows| :: rows[i].name in stats && rows[i].stat == stats[rows[i].name]
    ensures forall i, j | 0 <= i < j < |rows| :: rows[i].name != rows[j].name
    ensures forall name, i | name in stats && 0 <= i < |rows|
                          && (forall j | 0 <= j < |rows| :: rows[j].name != name) ::
              stats[name].totalDuration <= rows[i].stat.totalDuration
  {
    var sorted := SortedRows(stats);
    OmittedAreNoLonger(stats, sorted, Min(limit, |sorted|));
    rows := FirstRows(sorted, limit);
  }

  /** The ranking is the true top of the group-by: as many rows as asked for, longest first, every row
      the exact total of its name, and no omitted name longer than a listed one. */
  method Rank(log: seq<Entry>, q: Query, limitParam: Option<int>) returns (rows: seq<Row>)
    ensures |rows| == Min(Limit(limitParam), |GroupNames(log, q)|)
    ensures Descending(rows, ByDuration())
    ensures forall i | 0 <= i < |rows| ::
              rows[i].name in GroupNames(log, q) && IsGroupStat(rows[i].stat, log, rows[i].name, q)
    ensures forall i, j | 0 <= i < j < |rows| :: rows[i].name != rows[j].name
    ensures forall name, i | name in GroupNames(log, q) && 0 <= i < |rows|
                          && (forall j | 0 <= j < |rows| :: rows[j].name != name) ::
              GroupTotal(log, name, q) <= GroupTotal(log, rows[i].name, q)
  {
    var stats := Aggregate(log, q);
    rows := TopRows(stats, Limit(limitParam));
  }

  /** Cutting the sorted rows leaves out only names that are no longer. */
  lemma OmittedAreNoLonger(stats: map<string, Stat>, sorted: seq<Row>, k: nat)
    requires forall name :: Listed(stats, name, sorted)
    requires Descending(sorted, ByDuration())
    requires k <= |sorted|
    ensures forall name, i | name in stats && 0 <= i < k
                          && (forall j | 0 <= j < k :: sorted[j].name != name) ::
              stats[name].totalDuration <= sorted[i].stat.totalDuration
  {
    forall name, i | name in stats && 0 <= i < k && (forall j | 0 <= j < k :: sorted[j].name != name)
      ensures stats[name].totalDuration <= sorted[i].stat.totalDuration
    {
      assert Listed(stats, name, sorted);
      var m :| 0 <= m < |sorted| && sorted[m] == Row(name, stats[name]);
      assert ByDuration()(sorted[i]) >= ByDuration()(sorted[m]);
    }
  }

  lemma OnceInDistinct(a: seq<Row>, x: nat)
    requires x < |a| && forall i, j | 0 <= i < j < |a| :: a[i].name != a[j].name
    ensures multiset(a)[a[x]] == 1
  {
    assert a == a[..x] + [a[x]] + a[x + 1..];
    assert a[x] !in a[..x] && a[x] !in a[x + 1..];
  }

  lemma TwiceWhenRepeated(b: seq<Row>, i: nat, j: nat)
    requires i < j < |b| && b[i] == b[j]
    ensures multiset(b)[b[i]] >= 2
  {
    assert b == b[..j] + b[j..];
    assert b[i] in b[..j] && b[i] in b[j..];
    assert multiset(b[..j])[b[i]] >= 1 && multiset(b[j..])[b[i]] >= 1;
  }

  /** A permutation keeps every row, and keeps distinct names distinct. */
  lemma SamePermuted(a: seq<Row>, b: seq<Row>)
    requires multiset(a) == multiset(b)
    requires forall i, j | 0 <= i < j < |a| :: a[i].name != a[j].name
    ensures forall i | 0 <= i < |b| :: b[i] in a
    ensures forall i, j | 0 <= i < j < |b| :: b[i].name != b[j].name
  {
    forall i | 0 <= i < |b|
      ensures b[i] in a
    {
      assert b[i] in multiset(b);
    }
    forall i, j | 0 <= i < j < |b|
      ensures b[i].name != b[j].name
    {
      var x :| 0 <= x < |a| && a[x] == b[i];
      var y :| 0 <= y < |a| && a[y] == b[j];
      OnceInDistinct(a, x);
      if b[i] == b[j] {
        TwiceWhenRepeated(b, i, j);
        assert false;
      }
    }
  }

  lemma SamePermutedBack(a: seq<Row>, b: seq<Row>)
    requires multiset(a) == multiset(b)
    ensures forall row | row in a :: row in b
  {
    forall row | row in a
      ensures row in b
    {
      assert row in multiset(a);
      assert row in multiset(b);
    }
  }

  // ----- Laws -----

  /** Adjacent ranges: what a name adds up to over [a, c) is what it adds up to over [a, b) plus
      what it adds up to over [b, c). */
  predicate Additive(log: seq<Entry>, name: string, a: int, b: int, c: int, now: int) {
    GroupTotal(log, name, Query(a, c, now))
    == GroupTotal(log, name, Query(a, b, now)) + GroupTotal(log, name, Query(b, c, now))
  }

  /** The session does not end before it starts. */
  predicate OrderedAt(e: Entry, now: int)
    requires e.Session?
  {
    e.connect <= ClosedAt(e, Query(0, 0, now))
  }

  lemma AdjacentRangesAdd(log: seq<Entry>, name: string, a: int, b: int, c: int, now: int)
    requires a < b < c
    requires forall e | e in log && e.Session? && e.name == name :: OrderedAt(e, now)
    ensures Additive(log, name, a, b, c, now)
  {
    SumOverSplit(log, GroupWeight(name, Query(a, c, now)),
                 GroupWeight(name, Query(a, b, now)), GroupWeight(name, Query(b, c, now)));
  }

  /** A session that ends before it starts is counted in the whole range around it and in neither half. */
  lemma DisorderBreaksAdditivity(log: seq<Entry>, name: string, k: nat, now: int)
    requires k < |log| && log[k].Session? && log[k].name == name && !OrderedAt(log[k], now)
    ensures var dt := ClosedAt(log[k], Query(0, 0, now));
            !Additive(log, name, dt, dt + 1, log[k].connect + 1, now)
  {
    var dt := ClosedAt(log[k], Query(0, 0, now));
    var a, b, c := dt, dt + 1, log[k].connect + 1;
    var whole := GroupWeight(name, Query(a, c, now));
    var first, second := GroupWeight(name, Query(a, b, now)), GroupWeight(name, Query(b, c, now));
    var halves := e => first(e) + second(e);
    SumOverStrict(log, whole, halves, k);
    SumOverSplit(log, halves, first, second);
  }

  /** The totals of a name are additive for all ranges exactly when its sessions are in order. */
  lemma AdditiveExactlyWhenOrdered(log: seq<Entry>, name: string, now: int)
    ensures (forall a, b, c | a < b < c :: Additive(log, name, a, b, c, now))
       <==> (forall e | e in log && e.Session? && e.name == name :: OrderedAt(e, now))
  {
    if forall e | e in log && e.Session? && e.name == name :: OrderedAt(e, now) {
      forall a, b, c | a < b < c
        ensures Additive(log, name, a, b, c, now)
      {
        AdjacentRangesAdd(log, name, a, b, c, now);
      }
    } else {
      var e :| e in log && e.Session? && e.name == name && !OrderedAt(e, now);
      var k :| 0 <= k < |log| && log[k] == e;
      DisorderBreaksAdditivity(log, name, k, now);
    }
  }

  /** Conservation: the group totals of all names together are the overlaps of the named sessions. */
  lemma {:induction false} GroupTotalsConserve(log: seq<Entry>, names: seq<string>, q: Query)
    requires forall i, j | 0 <= i < j < |names| :: names[i] != names[j]
    requires forall e | e in log && Named(e, q) :: e.name in names
    requires "" !in names
    ensures SumOver(names, name => GroupTotal(log, name, q)) == SumOver(log, NamedWeight(q))
  {
    var total := name => GroupTotal(log, name, q);
    if |log| == 0 {
      AllZero(names, total);
    } else {
      var rest, e := log[..|log| - 1], log[|log| - 1];
      assert log == rest + [e];
      GroupTotalsConserve(rest, names, q);
      var before := name => GroupTotal(rest, name, q);
      var added := name => GroupWeight(name, q)(e);
      forall name
        ensures total(name) == before(name) + added(name)
      {
        SumOverSnoc(rest, e, GroupWeight(name, q));
      }
      SumOverSplit(names, total, before, added);
      assert e in log;
      if Named(e, q) {
        OneHit(names, added, e.name);
      } else {
        AllZero(names, added);
      }
    }
  }

  lemma {:induction false} OneHit(names: seq<string>, f: string -> int, hit: string)
    requires forall i, j | 0 <= i < j < |names| :: names[i] != names[j]
    requires hit in names
    requires forall name | name in names && name != hit :: f(name) == 0
    ensures SumOver(names, f) == f(hit)
  {
    var front, last := names[..|names| - 1], names[|names| - 1];
    if last == hit {
      AllZero(front, f);
    } else {
      OneHit(front, f, hit);
      assert last in names;
    }
  }
}
