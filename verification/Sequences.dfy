/** Facts about sequences that several parts of the model share: the place of a text in
    another, weighted sums over a log, and the contract of `std::sort`. */
module Sequences {

  function Min(x: int, y: int): int {
    if x <= y then x else y
  }

  function Max(x: int, y: int): int {
    if x >= y then x else y
  }

  predicate OccursAt(s: string, sub: string, i: int) {
    0 <= i <= |s| - |sub| && s[i..i + |sub|] == sub
  }

  predicate Contains(s: string, sub: string) {
    exists i | 0 <= i <= |s| - |sub| :: OccursAt(s, sub, i)
  }

  /** The position of the first `c`, or the length when there is none. */
  function FindChar(s: string, c: char): (i: nat)
    ensures i <= |s| && (forall k | 0 <= k < i :: s[k] != c) && (i < |s| ==> s[i] == c)
  {
    if |s| == 0 || s[0] == c then 0 else 1 + FindChar(s[1..], c)
  }

  lemma FindCharUnique(s: string, c: char, i: nat)
    requires i < |s| && s[i] == c && forall k | 0 <= k < i :: s[k] != c
    ensures FindChar(s, c) == i
  {
    var j := FindChar(s, c);
    assert j <= i;
    assert j < |s| ==> s[j] == c;
  }

  /** The sum of `weight` over the elements of `s`. */
  function SumOver<T>(s: seq<T>, weight: T -> int): int {
    if |s| == 0 then 0 else SumOver(s[..|s| - 1], weight) + weight(s[|s| - 1])
  }

  lemma {:induction false} SumOverSnoc<T>(s: seq<T>, x: T, weight: T -> int)
    ensures SumOver(s + [x], weight) == SumOver(s, weight) + weight(x)
  {
    assert (s + [x])[..|s|] == s;
  }

  lemma {:induction false} SumOverAppend<T>(a: seq<T>, b: seq<T>, weight: T -> int)
    ensures SumOver(a + b, weight) == SumOver(a, weight) + SumOver(b, weight)
  {
    if |b| == 0 {
      assert a + b == a;
    } else {
      assert (a + b)[..|a + b| - 1] == a + b[..|b| - 1];
      SumOverAppend(a, b[..|b| - 1], weight);
    }
  }

  /** A sum does not depend on the order of the elements. */
  lemma {:induction false} SumOverOrderFree<T>(a: seq<T>, b: seq<T>, weight: T -> int)
    requires multiset(a) == multiset(b)
    ensures SumOver(a, weight) == SumOver(b, weight)
  {
    if |a| == 0 {
      assert |multiset(b)| == 0;
      assert b == [];
    } else {
      var last := a[|a| - 1];
      assert last in multiset(b);
      var k :| 0 <= k < |b| && b[k] == last;
      var rest := b[..k] + b[k + 1..];
      assert a == a[..|a| - 1] + [last];
      assert b == b[..k] + [last] + b[k + 1..];
      assert multiset(a) == multiset(a[..|a| - 1]) + multiset{last};
      assert multiset(b) == multiset(rest) + multiset{last};
      assert multiset(a[..|a| - 1]) == multiset(a) - multiset{last};
      assert multiset(rest) == multiset(b) - multiset{last};
      SumOverOrderFree(a[..|a| - 1], rest, weight);
      SumOverAppend(b[..k], b[k + 1..], weight);
      SumOverAppend(b[..k] + [last], b[k + 1..], weight);
      SumOverSnoc(b[..k], last, weight);
    }
  }

  lemma {:induction false} AllZero<T>(s: seq<T>, f: T -> int)
    requires forall x | x in s :: f(x) == 0
    ensures SumOver(s, f) == 0
  {
    if |s| > 0 {
      assert s[|s| - 1] in s;
      AllZero(s[..|s| - 1], f);
    }
  }

  lemma {:induction false} SumOverMonotone<T>(s: seq<T>, small: T -> int, large: T -> int)
    requires forall x | x in s :: small(x) <= large(x)
    ensures SumOver(s, small) <= SumOver(s, large)
  {
    if |s| > 0 {
      assert s[|s| - 1] in s;
      SumOverMonotone(s[..|s| - 1], small, large);
    }
  }

  /** Weights that agree on the elements of `s` have the same sum over `s`. */
  lemma SumOverSame<T>(s: seq<T>, f: T -> int, g: T -> int)
    requires forall x | x in s :: f(x) == g(x)
    ensures SumOver(s, f) == SumOver(s, g)
  {
    SumOverMonotone(s, f, g);
    SumOverMonotone(s, g, f);
  }

  lemma {:induction false} SumOverSplit<T>(s: seq<T>, f: T -> int, g: T -> int, h: T -> int)
    requires forall x | x in s :: f(x) == g(x) + h(x)
    ensures SumOver(s, f) == SumOver(s, g) + SumOver(s, h)
  {
    if |s| > 0 {
      assert s[|s| - 1] in s;
      SumOverSplit(s[..|s| - 1], f, g, h);
    }
  }

  /** A weight that is never larger, and smaller somewhere, has the smaller sum. */
  lemma {:induction false} SumOverStrict<T>(s: seq<T>, small: T -> int, large: T -> int, k: nat)
    requires forall x | x in s :: small(x) <= large(x)
    requires k < |s| && small(s[k]) < large(s[k])
    ensures SumOver(s, small) < SumOver(s, large)
  {
    var front := s[..|s| - 1];
    assert s[|s| - 1] in s;
    if k == |s| - 1 {
      SumOverMonotone(front, small, large);
    } else {
      SumOverStrict(front, small, large, k);
    }
  }

  ghost predicate Descending<T(!new)>(s: seq<T>, key: T -> int) {
    forall i, j | 0 <= i < j < |s| :: key(s[i]) >= key(s[j])
  }

  lemma InsertKeepsDescending<T(!new)>(s: seq<T>, j: nat, x: T, key: T -> int)
    requires j <= |s| && Descending(s, key)
    requires forall k | 0 <= k < j :: key(s[k]) >= key(x)
    requires j < |s| ==> key(s[j]) < key(x)
    ensures Descending(s[..j] + [x] + s[j..], key)
  {
    var t := s[..j] + [x] + s[j..];
    forall a, b | 0 <= a < b < |t|
      ensures key(t[a]) >= key(t[b])
    {
      if b < j || a > j {
        assert key(s[if a < j then a else a - 1]) >= key(s[if b < j then b else b - 1]);
      } else if a < j < b {
        assert key(s[a]) >= key(s[b - 1]);
      } else if a == j {
        assert b - 1 == j || key(s[j]) >= key(s[b - 1]);
      }
    }
  }

  lemma InsertedElements<T>(s: seq<T>, j: nat, x: T)
    requires j <= |s|
    ensures multiset(s[..j] + [x] + s[j..]) == multiset(s) + multiset{x}
  {
    assert s == s[..j] + s[j..];
  }

  method InsertDescending<T(!new)>(s: seq<T>, x: T, key: T -> int) returns (t: seq<T>)
    requires Descending(s, key)
    ensures Descending(t, key)
    ensures multiset(t) == multiset(s) + multiset{x}
  {
    var j := 0;
    while j < |s| && key(s[j]) >= key(x)
      invariant 0 <= j <= |s|
      invariant forall k | 0 <= k < j :: key(s[k]) >= key(x)
    {
      j := j + 1;
    }
    t := s[..j] + [x] + s[j..];
    InsertKeepsDescending(s, j, x, key);
    InsertedElements(s, j, x);
  }

  /** What `std::sort` with a "greater by key" comparison promises: the same elements, largest key
      first, and nothing about the order of equal keys. */
  method SortDescending<T(!new)>(s: seq<T>, key: T -> int) returns (sorted: seq<T>)
    ensures multiset(sorted) == multiset(s)
    ensures |sorted| == |s|
    ensures Descending(sorted, key)
  {
    sorted := [];
    for i := 0 to |s|
      invariant multiset(sorted) == multiset(s[..i])
      invariant Descending(sorted, key)
    {
      sorted := InsertDescending(sorted, s[i], key);
      assert s[..i + 1] == s[..i] + [s[i]];
    }
    assert s[..|s|] == s;
    assert |multiset(sorted)| == |sorted| && |multiset(s)| == |s|;
  }
}
