/** The audit list: writing an entry, reading one page of it, and following `next_cursor` through the
    whole list while it may be growing. */
module AuditLog {
  import opened Options
  import opened Sequences

  datatype Entry = NotObject | Record(id: int, actor: string, action: string, target: string)

  /** Empty strings filter nothing. */
  datatype Filter = Filter(actor: string, action: string, target: string)

  datatype Page = Page(items: seq<Entry>, nextCursor: int, hasMore: bool, total: int)

  const AUDIT_KEEP := 50000

  predicate Matches(e: Entry, f: Filter) {
    && e.Record?
    && (f.actor == "" || e.actor == f.actor)
    && (f.action == "" || Contains(e.action, f.action))
    && (f.target == "" || e.target == f.target)
  }

  /** The matching entries, in list order. */
  function Filtered(s: seq<Entry>, f: Filter): seq<Entry> {
    if |s| == 0 then []
    else Filtered(s[..|s| - 1], f) + if Matches(s[|s| - 1], f) then [s[|s| - 1]] else []
  }

  /** `LRANGE`: negative positions count from the end, and the result is cut to the list. */
  function LRange(log: seq<Entry>, start: int, stop: int): (w: seq<Entry>)
    ensures 0 <= start <= stop ==> w == log[Min(start, |log|)..Min(stop + 1, |log|)]
  {
    var first := Max(0, if start < 0 then start + |log| else start);
    var last := Min(|log| - 1, if stop < 0 then stop + |log| else stop);
    if first > last || first >= |log| then [] else log[first..last + 1]
  }

  function Trim(log: seq<Entry>): seq<Entry> {
    log[..Min(AUDIT_KEEP, |log|)]
  }

  // ----- Writing -----

  /** The audit list, newest entry first, and the counter that numbers its entries. */
  class AuditStore {
    var log: seq<Entry>
    var lastId: int

    constructor ()
      ensures Valid() && log == [] && lastId == 0
    {
      log, lastId := [], 0;
    }

    /** Numbers strictly decrease along the list, so no entry occurs twice. */
    ghost predicate Valid()
      reads this
    {
      && |log| <= AUDIT_KEEP
      && (forall i | 0 <= i < |log| :: log[i].Record? && log[i].id <= lastId)
      && (forall i, j | 0 <= i < j < |log| :: log[i].id > log[j].id)
    }

    /** Only changing requests are recorded, and logging in is not. */
    method WriteAudit(verb: string, path: string, actor: string, target: string)
      requires Valid()
      modifies this
      ensures Valid()
      ensures verb in {"POST", "PUT", "DELETE", "PATCH"} && path != "/api/auth/login" ==>
                && lastId == old(lastId) + 1
                && log == Trim([Record(lastId, if actor == "" then "anonymous" else actor,
                                       verb + " " + path, target)] + old(log))
      ensures verb !in {"POST", "PUT", "DELETE", "PATCH"} || path == "/api/auth/login" ==>
                log == old(log) && lastId == old(lastId)
    {
      if verb != "POST" && verb != "PUT" && verb != "DELETE" && verb != "PATCH" {
        return;
      }
      if path == "/api/auth/login" {
        return;
      }
      lastId := lastId + 1;
      var who := if actor == "" then "anonymous" else actor;
      log := [Record(lastId, who, verb + " " + path, target)] + log;
      log := LRange(log, 0, AUDIT_KEEP - 1);
    }
  }

  // ----- Reading one page -----

  function PageLimit(param: Option<int>): (limit: nat)
    ensures 1 <= limit <= 1000
  {
    var l := if param.Some? then param.value else 100;
    if l <= 0 || l > 1000 then 100 else l
  }

  function Window(log: seq<Entry>, cursor: int, limit: nat): seq<Entry> {
    LRange(log, cursor, cursor + limit * 4 - 1)
  }

  /** The page holds the matching entries of the first part of the window. That part ends with the
      window, or with the entry that filled the page. */
  predicate IsPage(p: Page, log: seq<Entry>, cursor: int, limit: nat, f: Filter) {
    var w, k := Window(log, cursor, limit), p.nextCursor - cursor;
    && 0 <= k <= |w|
    && p.items == Filtered(w[..k], f)
    && |p.items| <= limit
    && (k == |w| || |p.items| == limit)
    && (k > 0 ==> |Filtered(w[..k - 1], f)| < limit)
    && p.total == |log|
    && (p.hasMore <==> p.nextCursor < |log|)
  }

  /** Collects matching entries until the window ends or the page is full. */
  method Scan(arr: seq<Entry>, limit: nat, f: Filter) returns (out: seq<Entry>, scanned: nat)
    requires limit > 0
    ensures scanned <= |arr| && out == Filtered(arr[..scanned], f) && |out| <= limit
    ensures scanned == |arr| || |out| == limit
    ensures scanned > 0 ==> |Filtered(arr[..scanned - 1], f)| < limit
  {
    out, scanned := [], 0;
    while scanned < |arr|
      invariant 0 <= scanned <= |arr|
      invariant out == Filtered(arr[..scanned], f) && |out| < limit
      invariant scanned > 0 ==> |Filtered(arr[..scanned - 1], f)| < limit
    {
      var entry := arr[scanned];
      scanned := scanned + 1;
      assert arr[..scanned][..scanned - 1] == arr[..scanned - 1];
      if !Matches(entry, f) {
        continue;
      }
      out := out + [entry];
      if |out| >= limit {
        break;
      }
    }
  }

  method GetAudit(log: seq<Entry>, cursorParam: Option<int>, limitParam: Option<int>, f: Filter)
    returns (page: Page)
    ensures IsPage(page, log, if cursorParam.Some? then cursorParam.value else 0, PageLimit(limitParam), f)
  {
    var cursor := if cursorParam.Some? then cursorParam.value else 0;
    var limit := PageLimit(limitParam);
    var arr := LRange(log, cursor, cursor + limit * 4 - 1);
    var out, scanned := Scan(arr, limit, f);
    var nextCursor := cursor + scanned;
    page := Page(out, nextCursor, nextCursor < |log|, |log|);
  }

  // ----- Following the cursor through a fixed list -----

  lemma PageIsSlice(p: Page, log: seq<Entry>, cursor: nat, limit: nat, f: Filter)
    requires IsPage(p, log, cursor, limit, f) && cursor <= |log| && limit > 0
    ensures cursor <= p.nextCursor <= |log|
    ensures p.items == Filtered(log[cursor..p.nextCursor], f)
    ensures cursor < |log| ==> cursor < p.nextCursor
  {
    var w, k := Window(log, cursor, limit), p.nextCursor - cursor;
    assert w[..k] == log[cursor..p.nextCursor];
    if k == 0 {
      assert |Filtered(w[..0], f)| == 0;
    }
  }

  /** Page `i` was asked for at the cursor the page before it returned; the first at 0. */
  predicate Chain(pages: seq<Page>, log: seq<Entry>, limit: nat, f: Filter) {
    && (forall i | 0 <= i < |pages| :: LinkedPage(pages, log, limit, f, i))
    && (forall i | 0 <= i < |pages| - 1 :: pages[i].hasMore)
  }

  predicate LinkedPage(pages: seq<Page>, log: seq<Entry>, limit: nat, f: Filter, i: nat)
    requires i < |pages|
  {
    IsPage(pages[i], log, CursorOf(pages, i), limit, f)
  }

  function CursorOf(pages: seq<Page>, i: nat): int
    requires i <= |pages|
  {
    if i == 0 then 0 else pages[i - 1].nextCursor
  }

  function Items(pages: seq<Page>): seq<Entry> {
    if |pages| == 0 then [] else Items(pages[..|pages| - 1]) + pages[|pages| - 1].items
  }

  lemma {:induction false} FilteredAppend(a: seq<Entry>, b: seq<Entry>, f: Filter)
    ensures Filtered(a + b, f) == Filtered(a, f) + Filtered(b, f)
  {
    if |b| == 0 {
      assert a + b == a;
    } else {
      assert (a + b)[..|a + b| - 1] == a + b[..|b| - 1];
      FilteredAppend(a, b[..|b| - 1], f);
    }
  }

  lemma ChainFront(pages: seq<Page>, log: seq<Entry>, limit: nat, f: Filter)
    requires Chain(pages, log, limit, f) && |pages| > 0
    ensures var n := |pages| - 1;
            && Chain(pages[..n], log, limit, f)
            && CursorOf(pages[..n], n) == CursorOf(pages, n)
            && (n > 0 ==> CursorOf(pages, n) < |log|)
  {
    var n := |pages| - 1;
    forall i | 0 <= i < n
      ensures LinkedPage(pages[..n], log, limit, f, i)
    {
      assert LinkedPage(pages, log, limit, f, i);
    }
    if n > 0 {
      assert LinkedPage(pages, log, limit, f, n - 1) && pages[n - 1].hasMore;
    }
  }

  /** The pages read so far are exactly the matching entries before the cursor, and each page advanced
      the cursor unless the list is empty. */
  lemma {:induction false} ChainReadsPrefix(pages: seq<Page>, log: seq<Entry>, limit: nat, f: Filter)
    requires Chain(pages, log, limit, f) && limit > 0
    ensures 0 <= CursorOf(pages, |pages|) <= |log|
    ensures Items(pages) == Filtered(log[..CursorOf(pages, |pages|)], f)
    ensures |pages| <= CursorOf(pages, |pages|) || (|pages| == 1 && log == [])
  {
    if |pages| > 0 {
      var n := |pages| - 1;
      ChainFront(pages, log, limit, f);
      ChainReadsPrefix(pages[..n], log, limit, f);
      var cursor, next := CursorOf(pages, n), pages[n].nextCursor;
      assert LinkedPage(pages, log, limit, f, n);
      PageIsSlice(pages[n], log, cursor, limit, f);
      FilteredAppend(log[..cursor], log[cursor..next], f);
      assert log[..next] == log[..cursor] + log[cursor..next];
    }
  }

  /** On a list that does not change, following the cursor ends, and the pages together are exactly
      the matching entries: none missed, none repeated. */
  lemma PaginationExact(pages: seq<Page>, log: seq<Entry>, limit: nat, f: Filter)
    requires Chain(pages, log, limit, f) && limit > 0
    ensures |pages| <= Max(1, |log|)
    ensures |pages| > 0 && !pages[|pages| - 1].hasMore ==> Items(pages) == Filtered(log, f)
  {
    ChainReadsPrefix(pages, log, limit, f);
    if |pages| > 0 && !pages[|pages| - 1].hasMore {
      assert LinkedPage(pages, log, limit, f, |pages| - 1);
      assert log[..CursorOf(pages, |pages|)] == log;
    }
  }

  // ----- Following the cursor while entries are pushed -----

  /** One page request: the entries pushed since the first request, and the page returned. */
  datatype Visit = Visit(pushed: seq<Entry>, page: Page)

  /** The list at a visit. */
  function ListAt(v: Visit, start: seq<Entry>): seq<Entry> {
    Trim(v.pushed + start)
  }

  function VisitCursor(visits: seq<Visit>, i: nat): int
    requires i <= |visits|
  {
    if i == 0 then 0 else visits[i - 1].page.nextCursor
  }

  /** Visits follow each other's cursors, and entries are only ever added at the head. */
  predicate Crawl(visits: seq<Visit>, start: seq<Entry>, limit: nat, f: Filter) {
    && (forall i | 0 <= i < |visits| :: LinkedVisit(visits, start, limit, f, i))
    && (forall i, j | 0 <= i < j < |visits| :: |visits[i].pushed| <= |visits[j].pushed|)
  }

  predicate LinkedVisit(visits: seq<Visit>, start: seq<Entry>, limit: nat, f: Filter, i: nat)
    requires i < |visits|
  {
    IsPage(visits[i].page, ListAt(visits[i], start), VisitCursor(visits, i), limit, f)
  }

  lemma {:induction false} FilteredHas(s: seq<Entry>, f: Filter, k: nat)
    requires k < |s| && Matches(s[k], f)
    ensures s[k] in Filtered(s, f)
  {
    if k < |s| - 1 {
      FilteredHas(s[..|s| - 1], f, k);
    }
  }

  /** The list never shrinks, so no cursor lies beyond its end. */
  lemma {:induction false} CursorsInList(visits: seq<Visit>, start: seq<Entry>, limit: nat, f: Filter, n: nat)
    requires Crawl(visits, start, limit, f) && n < |visits| && limit > 0
    ensures 0 <= VisitCursor(visits, n) <= visits[n].page.nextCursor <= |ListAt(visits[n], start)|
  {
    if n > 0 {
      CursorsInList(visits, start, limit, f, n - 1);
      assert |visits[n - 1].pushed| <= |visits[n].pushed|;
    }
    assert LinkedVisit(visits, start, limit, f, n);
    PageIsSlice(visits[n].page, ListAt(visits[n], start), VisitCursor(visits, n), limit, f);
  }

  /** An entry between a visit's cursor and the next one is on the visit's page. */
  lemma VisitReturns(v: Visit, start: seq<Entry>, cursor: nat, limit: nat, f: Filter, j: nat)
    requires IsPage(v.page, ListAt(v, start), cursor, limit, f) && limit > 0
    requires j < |start| && Matches(start[j], f)
    requires cursor <= |v.pushed| + j < v.page.nextCursor <= |ListAt(v, start)|
    ensures start[j] in v.page.items
  {
    var log, at := ListAt(v, start), |v.pushed| + j;
    PageIsSlice(v.page, log, cursor, limit, f);
    var slice := log[cursor..v.page.nextCursor];
    assert log[at] == (v.pushed + start)[at] == start[j];
    assert slice[at - cursor] == start[j];
    FilteredHas(slice, f, at - cursor);
  }

  /** An entry that the cursor of visit `n` has passed was returned by visit `n` or before it. */
  lemma {:induction false} PassedIsReturned(visits: seq<Visit>, start: seq<Entry>, limit: nat, f: Filter, n: nat, j: nat)
    requires Crawl(visits, start, limit, f) && n < |visits| && limit > 0
    requires j < |start| && Matches(start[j], f)
    requires |visits[n].pushed| + j < visits[n].page.nextCursor
    ensures exists i :: 0 <= i <= n && start[j] in visits[i].page.items
  {
    CursorsInList(visits, start, limit, f, n);
    if VisitCursor(visits, n) <= |visits[n].pushed| + j {
      assert LinkedVisit(visits, start, limit, f, n);
      VisitReturns(visits[n], start, VisitCursor(visits, n), limit, f, j);
    } else {
      assert |visits[n - 1].pushed| <= |visits[n].pushed|;
      PassedIsReturned(visits, start, limit, f, n - 1, j);
    }
  }

  /** While entries are pushed between requests, a crawl that reaches the end has returned every
      matching entry of the starting list that was not trimmed away by then. */
  lemma NothingMissedWhilePushing(visits: seq<Visit>, start: seq<Entry>, limit: nat, f: Filter, j: nat)
    requires Crawl(visits, start, limit, f) && |visits| > 0 && limit > 0
    requires !visits[|visits| - 1].page.hasMore
    requires j < |start| && Matches(start[j], f)
    requires |visits[|visits| - 1].pushed| + j < AUDIT_KEEP
    ensures exists i :: 0 <= i < |visits| && start[j] in visits[i].page.items
  {
    var n := |visits| - 1;
    assert LinkedVisit(visits, start, limit, f, n);
    PassedIsReturned(visits, start, limit, f, n, j);
  }

  // ----- Pages, spelled out -----

  /** What an entry must be to pass: empty strings ask for nothing, the action only has to be contained. */
  predicate Passes(e: Entry, f: Filter) {
    && e != NotObject && f.actor in {"", e.actor} && f.target in {"", e.target}
    && exists i | 0 <= i <= |e.action| :: f.action <= e.action[i..]
  }

  /** The entries that pass, from the front. */
  function Passing(s: seq<Entry>, f: Filter): seq<Entry> {
    if |s| == 0 then []
    else if Passes(s[0], f) then [s[0]] + Passing(s[1..], f)
    else Passing(s[1..], f)
  }

  lemma MatchesExactly(e: Entry, f: Filter)
    ensures Matches(e, f) <==> Passes(e, f)
  {
    if e.Record? {
      forall i | 0 <= i <= |e.action|
        ensures OccursAt(e.action, f.action, i) <==> f.action <= e.action[i..]
      {}
      if f.action == "" {
        assert f.action <= e.action[0..];
      }
    }
  }

  lemma {:induction false} FilteredExactly(s: seq<Entry>, f: Filter)
    ensures Filtered(s, f) == Passing(s, f)
  {
    if |s| > 0 {
      FilteredExactly(s[1..], f);
      FilteredAppend([s[0]], s[1..], f);
      assert [s[0]] + s[1..] == s;
      MatchesExactly(s[0], f);
      assert [s[0]][..0] == [];
      assert Filtered([s[0]], f) == if Matches(s[0], f) then [s[0]] else [];
    }
  }

  /** A page holds 100 entries unless another number from 1 to 1000 is asked for, and the list 50000. */
  lemma LimitsExactly(limit: int, log: seq<Entry>)
    ensures PageLimit(None) == 100
    ensures PageLimit(Some(limit)) == if 1 <= limit <= 1000 then limit else 100
    ensures Trim(log) == if |log| <= 50000 then log else log[..50000]
  {}

  /** Both ends of a range belong to it, and negative ones count from the end. */
  lemma RangeExactly(log: seq<Entry>, start: int, stop: int, i: nat, e: Entry)
    ensures var first := if start < 0 then start + |log| else start;
            var last := if stop < 0 then stop + |log| else stop;
            && LRange(log, start, stop) <= log[Max(0, Min(first, |log|))..]
            && (i < |log| && first <= i <= last ==>
                  && i - Max(0, first) < |LRange(log, start, stop)|
                  && LRange(log, start, stop)[i - Max(0, first)] == log[i])
            && (LRange(log, start, stop) != [] ==> |LRange(log, start, stop)| == Min(|log|, last + 1) - Max(0, first))
  {}

  /** What a page says: the entries that pass between its cursor and the next one, which lies four times the
      limit further on, or at the end, or just behind the entry that filled the page. */
  lemma PageExactly(p: Page, log: seq<Entry>, cursor: nat, limit: nat, f: Filter)
    requires IsPage(p, log, cursor, limit, f) && cursor <= |log| && limit > 0
    ensures cursor <= p.nextCursor <= |log| && p.nextCursor <= cursor + 4 * limit
    ensures p.items == Passing(log[cursor..p.nextCursor], f) && |p.items| <= limit
    ensures p.nextCursor == |log| || p.nextCursor == cursor + 4 * limit
         || (|p.items| == limit && cursor < p.nextCursor && Passes(log[p.nextCursor - 1], f))
    ensures p.total == |log| && (p.hasMore <==> p.nextCursor != |log|)
  {
    PageIsSlice(p, log, cursor, limit, f);
    FilteredExactly(log[cursor..p.nextCursor], f);
    var w, k := Window(log, cursor, limit), p.nextCursor - cursor;
    if k < |w| {
      assert k > 0;
      assert w[..k] == w[..k - 1] + [w[k - 1]];
      assert w[k - 1] == log[p.nextCursor - 1];
      MatchesExactly(w[k - 1], f);
    }
  }
}
