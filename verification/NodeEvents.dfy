/** `GET /api/system/events`: the newest events of all nodes, merged from one list per node. */
module NodeEvents {
  import opened Options
  import opened Sequences

  datatype Item = NotObject | Event(timestamp: int, text: string)

  const NODE_PREFIX := "LOG:NODE:"

  function EventLimit(param: Option<int>): (limit: nat)
    ensures 1 <= limit <= 500
  {
    var l := if param.Some? then param.value else 100;
    if l <= 0 || l > 500 then 100 else l
  }

  predicate IsNodeKey(k: string) {
    |k| > 9 && k[..9] == NODE_PREFIX
  }

  function Head(list: seq<Item>, limit: nat): seq<Item> {
    list[..Min(limit, |list|)]
  }

  function Objects(list: seq<Item>): seq<Item> {
    if |list| == 0 then []
    else Objects(list[..|list| - 1]) + if list[|list| - 1].Event? then [list[|list| - 1]] else []
  }

  /** The node lists, in the order of the scanned keys. */
  function NodeLists(keys: seq<string>, store: map<string, seq<Item>>): seq<seq<Item>> {
    if |keys| == 0 then []
    else
      var k := keys[|keys| - 1];
      NodeLists(keys[..|keys| - 1], store)
      + if IsNodeKey(k) then [if k in store then store[k] else []] else []
  }

  /** The objects among the first `limit` items of every list. */
  function Gathered(lists: seq<seq<Item>>, limit: nat): seq<Item> {
    if |lists| == 0 then []
    else Gathered(lists[..|lists| - 1], limit) + Objects(Head(lists[|lists| - 1], limit))
  }

  /** The objects of all complete lists. */
  function AllEvents(lists: seq<seq<Item>>): seq<Item> {
    if |lists| == 0 then [] else AllEvents(lists[..|lists| - 1]) + Objects(lists[|lists| - 1])
  }

  function ByTime(): Item -> int {
    (e: Item) => if e.Event? then e.timestamp else 0
  }

  /** `items` is the pool sorted newest-first and cut to `limit`; ties may come in any order. */
  ghost predicate IsNewest(items: seq<Item>, pool: seq<Item>, limit: nat) {
    exists sorted: seq<Item> ::
      multiset(sorted) == multiset(pool) && Descending(sorted, ByTime()) && items == Head(sorted, limit)
  }

  method SystemEvents(keys: seq<string>, store: map<string, seq<Item>>, limitParam: Option<int>)
    returns (items: seq<Item>)
    ensures IsNewest(items, Gathered(NodeLists(keys, store), EventLimit(limitParam)), EventLimit(limitParam))
  {
    var limit := EventLimit(limitParam);
    var pool := [];
    ghost var lists := [];
    for i := 0 to |keys|
      invariant lists == NodeLists(keys[..i], store) && pool == Gathered(lists, limit)
    {
      assert keys[..i + 1][..i] == keys[..i];
      var k := keys[i];
      if |k| > 9 && k[..9] == NODE_PREFIX {
        var list := if k in store then store[k] else [];
        var objects := KeepObjects(Head(list, limit));
        pool := pool + objects;
        assert (lists + [list])[..|lists|] == lists;
        lists := lists + [list];
      }
    }
    assert keys[..|keys|] == keys;
    var sorted := SortDescending(pool, ByTime());
    items := sorted;
    if |items| > limit {
      items := items[..limit];
    }
    assert items == Head(sorted, limit);
  }

  method KeepObjects(arr: seq<Item>) returns (out: seq<Item>)
    ensures out == Objects(arr)
  {
    out := [];
    for i := 0 to |arr|
      invariant out == Objects(arr[..i])
    {
      assert arr[..i + 1][..i] == arr[..i];
      if arr[i].Event? {
        out := out + [arr[i]];
      }
    }
    assert arr[..|arr|] == arr;
  }

  // ----- Truncating every list first loses nothing -----

  function SinceWeight(t: int): Item -> int {
    (e: Item) => if e.Event? && e.timestamp >= t then 1 else 0
  }

  /** How many events are not older than `t`. */
  function Since(s: seq<Item>, t: int): int {
    SumOver(s, SinceWeight(t))
  }

  lemma {:induction false} SinceBounds(s: seq<Item>, t: int)
    ensures 0 <= Since(s, t) <= |s|
  {
    if |s| > 0 {
      SinceBounds(s[..|s| - 1], t);
    }
  }

  lemma {:induction false} SinceAll(s: seq<Item>, t: int)
    requires forall i | 0 <= i < |s| :: s[i].Event? && s[i].timestamp >= t
    ensures Since(s, t) == |s|
  {
    if |s| > 0 {
      SinceAll(s[..|s| - 1], t);
    }
  }

  lemma {:induction false} SinceNone(s: seq<Item>, t: int)
    requires forall i | 0 <= i < |s| :: s[i].Event? ==> s[i].timestamp < t
    ensures Since(s, t) == 0
  {
    if |s| > 0 {
      SinceNone(s[..|s| - 1], t);
    }
  }

  lemma {:induction false} SinceObjects(s: seq<Item>, t: int)
    ensures Since(Objects(s), t) == Since(s, t)
  {
    if |s| > 0 {
      var front, e := s[..|s| - 1], s[|s| - 1];
      SinceObjects(front, t);
      if e.Event? {
        SumOverSnoc(Objects(front), e, SinceWeight(t));
      } else {
        assert Objects(s) == Objects(front);
      }
    }
  }

  lemma SinceOfParts(s: seq<Item>, k: nat, t: int)
    requires k <= |s|
    ensures Since(s, t) == Since(s[..k], t) + Since(s[k..], t)
  {
    assert s == s[..k] + s[k..];
    SumOverAppend(s[..k], s[k..], SinceWeight(t));
  }

  /** The events of a list come newest first. */
  ghost predicate NewestFirst(list: seq<Item>) {
    forall i, j | 0 <= i < j < |list| && list[i].Event? && list[j].Event? :: list[i].timestamp >= list[j].timestamp
  }

  predicate AllObjects(s: seq<Item>) {
    forall i | 0 <= i < |s| :: s[i].Event?
  }

  predicate NoObjects(s: seq<Item>) {
    forall i | 0 <= i < |s| :: s[i].NotObject?
  }

  /** The list is short, or what is fetched of it are objects only, or no object stands behind that. */
  predicate CutHidesNothing(list: seq<Item>, limit: nat) {
    |list| <= limit || AllObjects(list[..limit]) || NoObjects(list[limit..])
  }

  /** Cutting such a list keeps as many recent events as fit. */
  lemma SinceHead(list: seq<Item>, limit: nat, t: int)
    requires NewestFirst(list) && CutHidesNothing(list, limit)
    ensures Since(Head(list, limit), t) == Min(limit, Since(list, t))
  {
    if |list| <= limit {
      assert Head(list, limit) == list;
      SinceBounds(list, t);
    } else {
      var head, tail := list[..limit], list[limit..];
      SinceOfParts(list, limit, t);
      SinceBounds(head, t);
      SinceBounds(tail, t);
      if j :| 0 <= j < |tail| && tail[j].Event? && tail[j].timestamp >= t {
        forall i | 0 <= i < limit
          ensures head[i].Event? && head[i].timestamp >= t
        {
          assert head[i].Event?;
          assert list[i].timestamp >= list[limit + j].timestamp;
        }
        SinceAll(head, t);
      } else {
        SinceNone(tail, t);
      }
    }
  }

  lemma {:induction false} SinceLacks(s: seq<Item>, k: nat, t: int)
    requires k < |s| && s[k].NotObject?
    ensures Since(s, t) < |s|
  {
    if k == |s| - 1 {
      SinceBounds(s[..k], t);
    } else {
      SinceLacks(s[..|s| - 1], k, t);
    }
  }

  lemma SinceHas(s: seq<Item>, k: nat, t: int)
    requires k < |s| && s[k].Event? && s[k].timestamp >= t
    ensures Since(s, t) > 0
  {
    var head, tail := s[..k + 1], s[k + 1..];
    SinceOfParts(s, k + 1, t);
    assert head[..k] == s[..k];
    SinceBounds(s[..k], t);
    SinceBounds(tail, t);
  }

  /** A list that is cut behind something other than an object, with an object behind the cut, lacks
      events: fewer are left than fit. */
  lemma CutHides(list: seq<Item>, limit: nat, i: nat, j: nat)
    requires i < limit <= j < |list| && list[i].NotObject? && list[j].Event?
    ensures Since(Head(list, limit), list[j].timestamp) < Min(limit, Since(list, list[j].timestamp))
  {
    var t := list[j].timestamp;
    var head, tail := list[..limit], list[limit..];
    SinceOfParts(list, limit, t);
    SinceLacks(head, i, t);
    SinceHas(tail, j - limit, t);
  }

  /** Cutting a list whose events come newest first keeps as many recent events as fit, whatever counts as
      recent, exactly if the cut hides nothing. */
  lemma CutExactlyHarmless(list: seq<Item>, limit: nat)
    requires NewestFirst(list)
    ensures (forall t :: Since(Head(list, limit), t) == Min(limit, Since(list, t))) <==> CutHidesNothing(list, limit)
  {
    if CutHidesNothing(list, limit) {
      forall t
        ensures Since(Head(list, limit), t) == Min(limit, Since(list, t))
      {
        SinceHead(list, limit, t);
      }
    } else {
      var head, tail := list[..limit], list[limit..];
      var i :| 0 <= i < |head| && head[i].NotObject?;
      var j :| 0 <= j < |tail| && tail[j].Event?;
      CutHides(list, limit, i, limit + j);
    }
  }

  lemma {:induction false} SinceGathered(lists: seq<seq<Item>>, limit: nat, t: int)
    requires forall i | 0 <= i < |lists| :: NewestFirst(lists[i]) && CutHidesNothing(lists[i], limit)
    ensures Min(limit, Since(Gathered(lists, limit), t)) == Min(limit, Since(AllEvents(lists), t))
  {
    if |lists| > 0 {
      var front, list := lists[..|lists| - 1], lists[|lists| - 1];
      SinceGathered(front, limit, t);
      SumOverAppend(Gathered(front, limit), Objects(Head(list, limit)), SinceWeight(t));
      SumOverAppend(AllEvents(front), Objects(list), SinceWeight(t));
      SinceObjects(Head(list, limit), t);
      SinceObjects(list, t);
      SinceHead(list, limit, t);
      SinceBounds(list, t);
      SinceBounds(Gathered(front, limit), t);
      SinceBounds(AllEvents(front), t);
    }
  }

  /** The objects behind the first `limit` items of every list. */
  function Hidden(lists: seq<seq<Item>>, limit: nat): seq<Item> {
    if |lists| == 0 then []
    else
      var list := lists[|lists| - 1];
      Hidden(lists[..|lists| - 1], limit) + Objects(list[Min(limit, |list|)..])
  }

  lemma {:induction false} GatheredAndHidden(lists: seq<seq<Item>>, limit: nat, t: int)
    ensures Since(AllEvents(lists), t) == Since(Gathered(lists, limit), t) + Since(Hidden(lists, limit), t)
  {
    if |lists| > 0 {
      var front, list := lists[..|lists| - 1], lists[|lists| - 1];
      var tail := list[Min(limit, |list|)..];
      GatheredAndHidden(front, limit, t);
      SumOverAppend(Gathered(front, limit), Objects(Head(list, limit)), SinceWeight(t));
      SumOverAppend(AllEvents(front), Objects(list), SinceWeight(t));
      SumOverAppend(Hidden(front, limit), Objects(tail), SinceWeight(t));
      SinceObjects(Head(list, limit), t);
      SinceObjects(list, t);
      SinceObjects(tail, t);
      assert list == Head(list, limit) + tail;
      SumOverAppend(Head(list, limit), tail, SinceWeight(t));
    }
  }

  lemma {:induction false} AllAreEvents(lists: seq<seq<Item>>, limit: nat)
    ensures forall e | e in Gathered(lists, limit) :: e.Event?
    ensures forall e | e in AllEvents(lists) :: e.Event?
    ensures forall e | e in Hidden(lists, limit) :: e.Event?
  {
    if |lists| > 0 {
      AllAreEvents(lists[..|lists| - 1], limit);
      ObjectsAreEvents(Head(lists[|lists| - 1], limit));
      ObjectsAreEvents(lists[|lists| - 1][Min(limit, |lists[|lists| - 1]|)..]);
      ObjectsAreEvents(lists[|lists| - 1]);
    }
  }

  lemma {:induction false} ObjectsAreEvents(s: seq<Item>)
    ensures forall e | e in Objects(s) :: e.Event?
  {
    if |s| > 0 {
      ObjectsAreEvents(s[..|s| - 1]);
    }
  }

  /** What `IsNewest` says about the events since any time. */
  lemma NewestSince(items: seq<Item>, pool: seq<Item>, limit: nat, t: int)
    requires IsNewest(items, pool, limit) && forall e | e in pool :: e.Event?
    ensures Since(items, t) == Min(limit, Since(pool, t))
    ensures Descending(items, ByTime()) && forall i | 0 <= i < |items| :: items[i].Event?
  {
    var sorted: seq<Item> :| multiset(sorted) == multiset(pool) && Descending(sorted, ByTime()) && items == Head(sorted, limit);
    SumOverOrderFree(sorted, pool, SinceWeight(t));
    forall i | 0 <= i < |sorted|
      ensures sorted[i].Event?
    {
      assert sorted[i] in multiset(sorted);
      assert sorted[i] in multiset(pool);
    }
    forall i, j | 0 <= i < j < |sorted|
      ensures sorted[i].timestamp >= sorted[j].timestamp
    {
      assert ByTime()(sorted[i]) >= ByTime()(sorted[j]);
    }
    assert NewestFirst(sorted) && CutHidesNothing(sorted, limit);
    SinceHead(sorted, limit, t);
  }

  lemma DescendingTimes(s: seq<Item>, i: nat, j: nat)
    requires Descending(s, ByTime()) && (forall i | 0 <= i < |s| :: s[i].Event?) && i <= j < |s|
    ensures s[i].timestamp >= s[j].timestamp
  {
    assert i == j || ByTime()(s[i]) >= ByTime()(s[j]);
  }

  /** In a newest-first sequence of events the recent ones are the first ones. */
  lemma SinceSplits(s: seq<Item>, t: int, k: nat)
    requires Descending(s, ByTime()) && (forall i | 0 <= i < |s| :: s[i].Event?) && k < |s|
    ensures s[k].timestamp >= t <==> k < Since(s, t)
  {
    hide Descending, Since;
    var cut := if s[k].timestamp >= t then k + 1 else k;
    var head, tail := s[..cut], s[cut..];
    SinceOfParts(s, cut, t);
    SinceBounds(head, t);
    SinceBounds(tail, t);
    if s[k].timestamp >= t {
      forall i | 0 <= i < |head|
        ensures head[i].Event? && head[i].timestamp >= t
      {
        DescendingTimes(s, i, k);
      }
      SinceAll(head, t);
    } else {
      forall i | 0 <= i < |tail|
        ensures tail[i].timestamp < t
      {
        DescendingTimes(s, k, cut + i);
      }
      SinceNone(tail, t);
    }
  }

  /** The same times at the same places. */
  predicate SameTimes(a: seq<Item>, b: seq<Item>) {
    |a| == |b| && forall i | 0 <= i < |a| :: a[i].Event? && b[i].Event? && a[i].timestamp == b[i].timestamp
  }

  lemma SameCountsSameTimes(a: seq<Item>, b: seq<Item>)
    requires Descending(a, ByTime()) && forall i | 0 <= i < |a| :: a[i].Event?
    requires Descending(b, ByTime()) && forall i | 0 <= i < |b| :: b[i].Event?
    requires forall t :: Since(a, t) == Since(b, t)
    ensures SameTimes(a, b)
  {
    NotLonger(a, b);
    NotLonger(b, a);
    forall i | 0 <= i < |a|
      ensures a[i].timestamp == b[i].timestamp
    {
      SinceSplits(a, a[i].timestamp, i);
      SinceSplits(b, a[i].timestamp, i);
      SinceSplits(a, b[i].timestamp, i);
      SinceSplits(b, b[i].timestamp, i);
    }
  }

  lemma {:induction false} SameTimesSameCounts(a: seq<Item>, b: seq<Item>, t: int)
    requires SameTimes(a, b)
    ensures Since(a, t) == Since(b, t)
  {
    if |a| > 0 {
      SameTimesSameCounts(a[..|a| - 1], b[..|b| - 1], t);
    }
  }

  lemma NotLonger(a: seq<Item>, b: seq<Item>)
    requires Descending(a, ByTime()) && forall i | 0 <= i < |a| :: a[i].Event?
    requires forall t :: Since(a, t) == Since(b, t)
    ensures |a| <= |b|
  {
    if |a| > 0 {
      var t := a[|a| - 1].timestamp;
      SinceSplits(a, t, |a| - 1);
      SinceBounds(b, t);
    }
  }

  // ----- The answer against the answer from complete lists -----

  /** `items` is an answer from the first `limit` items of every list, `best` one from the complete lists. */
  ghost predicate Answers(lists: seq<seq<Item>>, limit: nat, items: seq<Item>, best: seq<Item>) {
    IsNewest(items, Gathered(lists, limit), limit) && IsNewest(best, AllEvents(lists), limit)
  }

  lemma AnswersSince(lists: seq<seq<Item>>, limit: nat, items: seq<Item>, best: seq<Item>, t: int)
    requires Answers(lists, limit, items, best)
    ensures Since(items, t) == Min(limit, Since(Gathered(lists, limit), t))
    ensures Since(best, t) == Min(limit, Since(AllEvents(lists), t))
    ensures Descending(items, ByTime()) && forall i | 0 <= i < |items| :: items[i].Event?
    ensures Descending(best, ByTime()) && forall i | 0 <= i < |best| :: best[i].Event?
  {
    AllAreEvents(lists, limit);
    NewestSince(items, Gathered(lists, limit), limit, t);
    NewestSince(best, AllEvents(lists), limit, t);
  }

  /** Since any time, as many gathered events as fit. */
  ghost predicate Enough(lists: seq<seq<Item>>, limit: nat) {
    forall t :: EnoughSince(lists, limit, t)
  }

  predicate EnoughSince(lists: seq<seq<Item>>, limit: nat, t: int) {
    Min(limit, Since(Gathered(lists, limit), t)) == Min(limit, Since(AllEvents(lists), t))
  }

  /** The answer shows the times that the complete lists would give exactly if, since any time, it has as
      many events to choose from as fit. */
  lemma SameTimesByCounts(lists: seq<seq<Item>>, limit: nat, items: seq<Item>, best: seq<Item>)
    requires Answers(lists, limit, items, best)
    ensures SameTimes(items, best) <==> Enough(lists, limit)
  {
    AnswersSince(lists, limit, items, best, 0);
    if SameTimes(items, best) {
      forall t
        ensures EnoughSince(lists, limit, t)
      {
        AnswersSince(lists, limit, items, best, t);
        SameTimesSameCounts(items, best, t);
      }
    } else if Enough(lists, limit) {
      forall t
        ensures Since(items, t) == Since(best, t)
      {
        AnswersSince(lists, limit, items, best, t);
        assert EnoughSince(lists, limit, t);
      }
      SameCountsSameTimes(items, best);
    }
  }

  /** If no cut hides anything, the answer shows the times that the complete lists would give. */
  lemma TruncatedMergeIsTopK(lists: seq<seq<Item>>, limit: nat, items: seq<Item>, best: seq<Item>)
    requires forall i | 0 <= i < |lists| :: NewestFirst(lists[i]) && CutHidesNothing(lists[i], limit)
    requires Answers(lists, limit, items, best)
    ensures SameTimes(items, best)
  {
    forall t
      ensures EnoughSince(lists, limit, t)
    {
      SinceGathered(lists, limit, t);
    }
    SameTimesByCounts(lists, limit, items, best);
  }

  lemma SingleCounts(list: seq<Item>, limit: nat, t: int)
    ensures Since(Gathered([list], limit), t) == Since(Head(list, limit), t) <= limit
    ensures Since(AllEvents([list]), t) == Since(list, t)
  {
    assert [list][..0] == [];
    assert AllEvents([]) == [] && Gathered([], limit) == [];
    assert Gathered([list], limit) == Objects(Head(list, limit));
    assert AllEvents([list]) == Objects(list);
    SinceObjects(Head(list, limit), t);
    SinceObjects(list, t);
    SinceBounds(Head(list, limit), t);
  }

  /** And the answer from a single node shows these times only if its cut hides nothing. */
  lemma SingleNodeExactly(list: seq<Item>, limit: nat, items: seq<Item>, best: seq<Item>)
    requires NewestFirst(list) && Answers([list], limit, items, best)
    ensures SameTimes(items, best) <==> CutHidesNothing(list, limit)
  {
    hide Since, Gathered, AllEvents, Answers, SameTimes, CutHidesNothing, NewestFirst, Head;
    forall t
      ensures Min(limit, Since(Gathered([list], limit), t)) == Since(Head(list, limit), t)
      ensures Since(AllEvents([list]), t) == Since(list, t)
    {
      SingleCounts(list, limit, t);
    }
    SameTimesByCounts([list], limit, items, best);
    CutExactlyHarmless(list, limit);
    if SameTimes(items, best) {
      forall t
        ensures Since(Head(list, limit), t) == Min(limit, Since(list, t))
      {
        assert EnoughSince([list], limit, t);
      }
    }
  }

  /** Each hidden event is outdone by as many gathered events as are shown. */
  predicate HiddenAreLate(lists: seq<seq<Item>>, limit: nat) {
    var hidden := Hidden(lists, limit);
    forall k | 0 <= k < |hidden| ::
      hidden[k].Event? ==> Since(Gathered(lists, limit), hidden[k].timestamp) >= limit
  }

  lemma {:induction false} SinceLater(s: seq<Item>, t: int, u: int)
    requires t <= u
    ensures Since(s, u) <= Since(s, t)
  {
    SumOverMonotone(s, SinceWeight(u), SinceWeight(t));
  }

  lemma CountsExactlyIfLate(lists: seq<seq<Item>>, limit: nat, t: int)
    requires HiddenAreLate(lists, limit)
    ensures EnoughSince(lists, limit, t)
  {
    var hidden := Hidden(lists, limit);
    GatheredAndHidden(lists, limit, t);
    SinceBounds(hidden, t);
    if k :| 0 <= k < |hidden| && hidden[k].Event? && hidden[k].timestamp >= t {
      SinceLater(Gathered(lists, limit), t, hidden[k].timestamp);
    } else {
      SinceNone(hidden, t);
    }
  }

  /** For any lists, in whatever order their events stand: the answer shows the times that the complete
      lists would give exactly if each hidden event is outdone. */
  lemma MergeExactlyIfLate(lists: seq<seq<Item>>, limit: nat, items: seq<Item>, best: seq<Item>)
    requires Answers(lists, limit, items, best)
    ensures SameTimes(items, best) <==> HiddenAreLate(lists, limit)
  {
    hide HiddenAreLate, Answers, SameTimes;
    SameTimesByCounts(lists, limit, items, best);
    if HiddenAreLate(lists, limit) {
      forall t
        ensures EnoughSince(lists, limit, t)
      {
        CountsExactlyIfLate(lists, limit, t);
      }
    } else if Enough(lists, limit) {
      CountsShowLate(lists, limit);
    }
  }

  lemma CountsShowLate(lists: seq<seq<Item>>, limit: nat)
    requires Enough(lists, limit)
    ensures HiddenAreLate(lists, limit)
  {
    var hidden := Hidden(lists, limit);
    forall k | 0 <= k < |hidden| && hidden[k].Event?
      ensures Since(Gathered(lists, limit), hidden[k].timestamp) >= limit
    {
      var t := hidden[k].timestamp;
      GatheredAndHidden(lists, limit, t);
      SinceHas(hidden, k, t);
      assert EnoughSince(lists, limit, t);
    }
  }

  /** An item that is not an object uses up a place: with a limit of 1 it hides the event behind it, and
      the answer is empty. */
  lemma NonObjectHidesEvent(items: seq<Item>, best: seq<Item>)
    requires Answers([[NotObject, Event(5, "up")]], 1, items, best)
    ensures !SameTimes(items, best) && items == []
  {
    var list := [NotObject, Event(5, "up")];
    assert list[..1] == [NotObject] && list[1..] == [Event(5, "up")];
    assert [NotObject][0].NotObject? && [Event(5, "up")][0].Event?;
    SingleNodeExactly(list, 1, items, best);
    assert [list][..0] == [] && [NotObject][..0] == [];
    assert Gathered([list], 1) == Objects([NotObject]) == [];
    var sorted: seq<Item> :| multiset(sorted) == multiset([]) && items == Head(sorted, 1);
    assert |multiset(sorted)| == 0;
  }

  // ----- The answer, spelled out -----

  /** 100 events unless another number from 1 to 500 is asked for. */
  lemma LimitExactly(limit: int)
    ensures EventLimit(None) == 100
    ensures EventLimit(Some(limit)) == if 1 <= limit <= 500 then limit else 100
  {}

  /** The keys of the node lists start with "LOG:NODE:" and go on. */
  lemma KeysExactly(k: string, node: string)
    ensures IsNodeKey(k) <==> "LOG:NODE:" < k
    ensures IsNodeKey("LOG:NODE:" + node) <==> node != ""
  {}

  /** Of a list only the objects count. */
  lemma {:induction false} ObjectsExactly(a: seq<Item>, e: Item, b: seq<Item>)
    ensures Objects([]) == []
    ensures Objects(a + [e] + b) == Objects(a) + (if e == NotObject then [] else [e]) + Objects(b)
  {
    ObjectsAppend(a + [e], b);
    ObjectsAppend(a, [e]);
    assert [e][..0] == [];
  }

  lemma {:induction false} ObjectsAppend(a: seq<Item>, b: seq<Item>)
    ensures Objects(a + b) == Objects(a) + Objects(b)
  {
    if |b| == 0 {
      assert a + b == a;
    } else {
      assert (a + b)[..|a + b| - 1] == a + b[..|b| - 1];
      ObjectsAppend(a, b[..|b| - 1]);
    }
  }

  /** The lists are read key by key; a key that has vanished has an empty list. */
  lemma {:induction false} ListsExactly(a: seq<string>, node: string, other: string, store: map<string, seq<Item>>)
    requires node != "" && !("LOG:NODE:" < other)
    ensures NodeLists([], store) == [] && NodeLists(a + [other], store) == NodeLists(a, store)
    ensures var k := "LOG:NODE:" + node;
            NodeLists(a + [k], store) == NodeLists(a, store) + [if k in store then store[k] else []]
  {
    KeysExactly(other, node);
    assert (a + [other])[..|a|] == a;
    assert (a + ["LOG:NODE:" + node])[..|a|] == a;
  }

  /** Of each list the first `limit` items are gathered, or all of them for the complete answer. */
  lemma {:induction false} GatheredExactly(lists: seq<seq<Item>>, list: seq<Item>, limit: nat)
    ensures Gathered([], limit) == [] && AllEvents([]) == []
    ensures Gathered(lists + [list], limit)
         == Gathered(lists, limit) + Objects(if |list| <= limit then list else list[..limit])
    ensures AllEvents(lists + [list]) == AllEvents(lists) + Objects(list)
  {
    assert (lists + [list])[..|lists|] == lists;
    assert |list| <= limit ==> list[..|list|] == list;
  }

  predicate NoNewer(e: Item, items: seq<Item>) {
    forall i | 0 <= i < |items| :: e.Event? && items[i].Event? && e.timestamp <= items[i].timestamp
  }

  /** The answer: events of the pool, newest first, as many as fit, and none left out that is newer than one
      that is shown. */
  lemma NewestExactly(items: seq<Item>, pool: seq<Item>, limit: nat)
    requires IsNewest(items, pool, limit) && forall e | e in pool :: e.Event?
    ensures |items| == (if |pool| < limit then |pool| else limit) && multiset(items) <= multiset(pool)
    ensures forall i, j | 0 <= i < j < |items| :: items[i].Event? && items[j].Event? && items[i].timestamp >= items[j].timestamp
    ensures forall e | e in pool && multiset(items)[e] < multiset(pool)[e] :: NoNewer(e, items)
  {
    hide Descending, Since;
    var sorted: seq<Item> :| multiset(sorted) == multiset(pool) && Descending(sorted, ByTime()) && items == Head(sorted, limit);
    NewestSince(items, pool, limit, 0);
    assert |multiset(sorted)| == |multiset(pool)|;
    var rest := sorted[|items|..];
    assert sorted == items + rest;
    assert multiset(sorted) == multiset(items) + multiset(rest);
    SortedAreEvents(sorted, pool);
    forall i, j | 0 <= i < j < |items|
      ensures items[i].timestamp >= items[j].timestamp
    {
      DescendingTimes(items, i, j);
    }
    forall e | e in pool && multiset(items)[e] < multiset(pool)[e]
      ensures NoNewer(e, items)
    {
      assert e in multiset(rest);
      RestIsNoNewer(sorted, items, rest, e);
    }
  }

  lemma SortedAreEvents(sorted: seq<Item>, pool: seq<Item>)
    requires multiset(sorted) == multiset(pool) && forall e | e in pool :: e.Event?
    ensures forall i | 0 <= i < |sorted| :: sorted[i].Event?
  {
    forall i | 0 <= i < |sorted|
      ensures sorted[i].Event?
    {
      assert sorted[i] in multiset(sorted);
      assert sorted[i] in multiset(pool);
    }
  }

  lemma RestIsNoNewer(sorted: seq<Item>, items: seq<Item>, rest: seq<Item>, e: Item)
    requires sorted == items + rest && Descending(sorted, ByTime()) && e in rest
    requires forall i | 0 <= i < |sorted| :: sorted[i].Event?
    ensures NoNewer(e, items)
  {
    hide Descending;
    var k :| 0 <= k < |rest| && rest[k] == e;
    assert sorted[|items| + k] == e;
    forall i | 0 <= i < |items|
      ensures items[i].Event? && e.timestamp <= items[i].timestamp
    {
      assert sorted[i] == items[i];
      DescendingTimes(sorted, i, |items| + k);
    }
  }
}
