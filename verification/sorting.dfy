/** Sorting, truncation and selection as the dashboard uses them: `sort_values`, `head(k)`,
    `tail(k)` and boolean-mask filtering. pandas' default sort is not stable, so nothing here
    promises an order among rows whose keys tie. */
module Sorting {
  import opened Options

  ghost predicate TotalPreorder<T(!new)>(le: (T, T) -> bool) {
    && (forall a, b :: le(a, b) || le(b, a))
    && (forall a, b, c :: le(a, b) && le(b, c) ==> le(a, c))
  }

  ghost predicate Sorted<T>(xs: seq<T>, le: (T, T) -> bool) {
    forall i, j | 0 <= i < j < |xs| :: le(xs[i], xs[j])
  }

  function Min(a: int, b: int): int {
    if a <= b then a else b
  }

  // ---------------------------------------------------------------------------
  // Sorting by a comparison
  // ---------------------------------------------------------------------------

  /** Places `x` before the first element it may precede. */
  function Insert<T(!new)>(x: T, xs: seq<T>, le: (T, T) -> bool): (r: seq<T>)
    ensures multiset(r) == multiset(xs) + multiset{x}
  {
    if |xs| == 0 then [x]
    else if le(x, xs[0]) then [x] + xs
    else
      assert xs == [xs[0]] + xs[1..];
      [xs[0]] + Insert(x, xs[1..], le)
  }

  /** A common lower bound of `x` and of every element of `xs` bounds the insertion too. */
  lemma {:induction false} InsertLowerBound<T(!new)>(x: T, xs: seq<T>, le: (T, T) -> bool, lo: T)
    requires le(lo, x) && forall j | 0 <= j < |xs| :: le(lo, xs[j])
    ensures forall j | 0 <= j < |Insert(x, xs, le)| :: le(lo, Insert(x, xs, le)[j])
  {
    if |xs| > 0 && !le(x, xs[0]) {
      InsertLowerBound(x, xs[1..], le, lo);
    }
  }

  lemma {:induction false} InsertSorted<T(!new)>(x: T, xs: seq<T>, le: (T, T) -> bool)
    requires TotalPreorder(le) && Sorted(xs, le)
    ensures Sorted(Insert(x, xs, le), le)
  {
    if |xs| > 0 {
      if le(x, xs[0]) {
        assert forall j | 0 < j < |xs| :: le(xs[0], xs[j]);
      } else {
        InsertSorted(x, xs[1..], le);
        InsertLowerBound(x, xs[1..], le, xs[0]);
      }
    }
  }

  /** Insertion sort: an ordered permutation of `xs`. */
  function Sort<T(!new)>(xs: seq<T>, le: (T, T) -> bool): (r: seq<T>)
    requires TotalPreorder(le)
    ensures Sorted(r, le)
    ensures multiset(r) == multiset(xs)
  {
    if |xs| == 0 then []
    else
      assert xs == [xs[0]] + xs[1..];
      var rest := Sort(xs[1..], le);
      InsertSorted(xs[0], rest, le);
      Insert(xs[0], rest, le)
  }

  // ---------------------------------------------------------------------------
  // Sorting by a numeric key, as `sort_values(col, ascending=...)`
  // ---------------------------------------------------------------------------

  datatype Direction = Ascending | Descending

  /** Key `a` may precede key `b`: missing keys (NaN) go last in either direction, as in
      `sort_values`' default `na_position="last"`. */
  predicate KeyLe(a: Option<real>, b: Option<real>, dir: Direction) {
    b.None? || (a.Some? && (if dir == Ascending then a.value <= b.value else a.value >= b.value))
  }

  function ByKey<T>(key: T -> Option<real>, dir: Direction): (T, T) -> bool {
    (a: T, b: T) => KeyLe(key(a), key(b), dir)
  }

  lemma ByKeyIsTotalPreorder<T(!new)>(key: T -> Option<real>, dir: Direction)
    ensures TotalPreorder(ByKey(key, dir))
  {
  }

  ghost predicate SortedByKey<T>(xs: seq<T>, key: T -> Option<real>, dir: Direction) {
    forall i, j | 0 <= i < j < |xs| :: KeyLe(key(xs[i]), key(xs[j]), dir)
  }

  /** `sort_values(key, ascending = dir == Ascending)`. */
  function SortBy<T(!new)>(xs: seq<T>, key: T -> Option<real>, dir: Direction): (r: seq<T>)
    ensures SortedByKey(r, key, dir)
    ensures multiset(r) == multiset(xs)
  {
    ByKeyIsTotalPreorder(key, dir);
    Sort(xs, ByKey(key, dir))
  }

  // ---------------------------------------------------------------------------
  // head / tail
  // ---------------------------------------------------------------------------

  /** `head(k)`: the first `k` rows, or all of them when there are fewer. */
  function Head<T>(xs: seq<T>, k: nat): (r: seq<T>)
    ensures |r| == Min(k, |xs|) && r == xs[..|r|]
  {
    if k < |xs| then xs[..k] else xs
  }

  /** `tail(k)`: the last `k` rows, or all of them when there are fewer. */
  function Tail<T>(xs: seq<T>, k: nat): (r: seq<T>)
    ensures |r| == Min(k, |xs|) && r == xs[|xs| - |r|..]
  {
    if k < |xs| then xs[|xs| - k..] else xs
  }

  // ---------------------------------------------------------------------------
  // Top-k selection: sort_values(...).head(k)
  // ---------------------------------------------------------------------------

  /** `r` is a top-`k` selection of `xs` by `key`: `min(k, |xs|)` rows drawn from `xs`, in key
      order, and no row left out ranks strictly ahead of a row kept. */
  ghost predicate IsTopK<T>(xs: seq<T>, r: seq<T>, key: T -> Option<real>, dir: Direction, k: nat) {
    && |r| == Min(k, |xs|)
    && multiset(r) <= multiset(xs)
    && SortedByKey(r, key, dir)
    && forall x, y | x in r && y in multiset(xs) - multiset(r) :: KeyLe(key(x), key(y), dir)
  }

  /** The head of a key-sorted sequence ranks no later than anything after it. */
  lemma SortedHeadFirst<T>(s: seq<T>, key: T -> Option<real>, dir: Direction, n: nat)
    requires SortedByKey(s, key, dir) && n <= |s|
    ensures forall x, y | x in s[..n] && y in multiset(s) - multiset(s[..n]) :: KeyLe(key(x), key(y), dir)
  {
    var r, rest := s[..n], s[n..];
    assert s == r + rest;
    assert multiset(s) - multiset(r) == multiset(rest);
    SortedSplit(s, key, dir, n);
  }

  lemma SortedSplit<T>(s: seq<T>, key: T -> Option<real>, dir: Direction, n: nat)
    requires SortedByKey(s, key, dir) && n <= |s|
    ensures forall x, y | x in s[..n] && y in s[n..] :: KeyLe(key(x), key(y), dir)
  {
    forall x, y | x in s[..n] && y in s[n..]
      ensures KeyLe(key(x), key(y), dir)
    {
      var i :| 0 <= i < n && s[..n][i] == x;
      var j :| 0 <= j < |s| - n && s[n..][j] == y;
      assert s[i] == x && s[n + j] == y;
    }
  }

  /** The tail of a key-sorted sequence ranks no earlier than anything before it. */
  lemma SortedTailLast<T>(s: seq<T>, key: T -> Option<real>, dir: Direction, n: nat)
    requires SortedByKey(s, key, dir) && n <= |s|
    ensures forall x, y | x in s[|s| - n..] && y in multiset(s) - multiset(s[|s| - n..]) :: KeyLe(key(y), key(x), dir)
  {
    var front, r := s[..|s| - n], s[|s| - n..];
    assert s == front + r;
    assert multiset(s) - multiset(r) == multiset(front);
    forall x, y | x in r && y in front
      ensures KeyLe(key(y), key(x), dir)
    {
      var i :| 0 <= i < |r| && r[i] == x;
      var j :| 0 <= j < |front| && front[j] == y;
      assert s[|s| - n + i] == x && s[j] == y;
    }
  }

  /** `r` is a bottom-`k` selection of `xs`: the last `min(k, |xs|)` of a key-sorted
      arrangement, in key order, nothing left out ranking later than anything kept. */
  ghost predicate IsLastK<T>(xs: seq<T>, r: seq<T>, key: T -> Option<real>, dir: Direction, k: nat) {
    && |r| == Min(k, |xs|)
    && multiset(r) <= multiset(xs)
    && SortedByKey(r, key, dir)
    && forall x, y | x in r && y in multiset(xs) - multiset(r) :: KeyLe(key(y), key(x), dir)
  }

  /** The tail of a key-sorted arrangement of `xs` is a bottom-`k` selection of `xs`. */
  lemma TailIsLastK<T>(xs: seq<T>, s: seq<T>, key: T -> Option<real>, dir: Direction, k: nat)
    requires SortedByKey(s, key, dir) && multiset(s) == multiset(xs)
    ensures IsLastK(xs, Tail(s, k), key, dir, k)
  {
    var r := Tail(s, k);
    var d := |s| - |r|;
    assert r == s[d..];
    SortedTailLast(s, key, dir, |r|);
    assert s == s[..d] + r;
    assert multiset(s) == multiset(s[..d]) + multiset(r);
    assert |s| == |xs| by {
      assert |multiset(s)| == |multiset(xs)|;
    }
    assert SortedByKey(r, key, dir) by {
      forall i, j | 0 <= i < j < |r|
        ensures KeyLe(key(r[i]), key(r[j]), dir)
      {
        assert r[i] == s[d + i] && r[j] == s[d + j];
      }
    }
  }

  /** The head of a key-sorted arrangement of `xs` is a top-`k` selection of `xs`. */
  lemma HeadIsTopK<T>(xs: seq<T>, s: seq<T>, key: T -> Option<real>, dir: Direction, k: nat)
    requires SortedByKey(s, key, dir) && multiset(s) == multiset(xs)
    ensures IsTopK(xs, Head(s, k), key, dir, k)
  {
    var r := Head(s, k);
    SortedHeadFirst(s, key, dir, |r|);
    assert s == r + s[|r|..];
    assert multiset(s) == multiset(r) + multiset(s[|r|..]);
    assert |s| == |xs| by {
      assert |multiset(s)| == |multiset(xs)|;
    }
    assert SortedByKey(r, key, dir) by {
      forall i, j | 0 <= i < j < |r|
        ensures KeyLe(key(r[i]), key(r[j]), dir)
      {
        assert r[i] == s[i] && r[j] == s[j];
      }
    }
  }

  function TopBy<T(!new)>(xs: seq<T>, key: T -> Option<real>, dir: Direction, k: nat): (r: seq<T>)
    ensures IsTopK(xs, r, key, dir, k)
  {
    var s := SortBy(xs, key, dir);
    HeadIsTopK(xs, s, key, dir, k);
    Head(s, k)
  }

  // ---------------------------------------------------------------------------
  // Boolean-mask selection: df[mask]
  // ---------------------------------------------------------------------------

  /** `xs[mask]`: the elements satisfying `p`, in their original order. */
  function Filter<T>(xs: seq<T>, p: T -> bool): (r: seq<T>)
    ensures |r| <= |xs|
    ensures forall i | 0 <= i < |r| :: p(r[i])
    ensures forall x | x in r :: x in xs
    ensures forall i | 0 <= i < |xs| && p(xs[i]) :: xs[i] in r
  {
    if |xs| == 0 then []
    else
      var rest := Filter(xs[1..], p);
      assert forall i | 1 <= i < |xs| :: xs[i] == xs[1..][i - 1];
      if p(xs[0]) then [xs[0]] + rest else rest
  }

  /** Filtering keeps exactly the matching elements, with their multiplicities. */
  lemma {:induction false} FilterMultiset<T>(xs: seq<T>, p: T -> bool)
    ensures forall x | p(x) :: multiset(Filter(xs, p))[x] == multiset(xs)[x]
    ensures forall x | !p(x) :: multiset(Filter(xs, p))[x] == 0
  {
    if |xs| > 0 {
      FilterMultiset(xs[1..], p);
      assert xs == [xs[0]] + xs[1..];
    }
  }
}
