/** The aggregates pandas computes over the non-missing values of a column: count, sum, mean
    and median (`skipna=True` throughout). Arithmetic is exact; floating-point rounding is not
    modelled. */
module Stats {
  import opened Options
  import opened Sorting

  // ---------------------------------------------------------------------------
  // Counting
  // ---------------------------------------------------------------------------

  /** How many of `xs` satisfy `p`. */
  function CountWhere<T>(xs: seq<T>, p: T -> bool): nat {
    |Filter(xs, p)|
  }

  lemma {:induction false} FilterConcat<T>(a: seq<T>, b: seq<T>, p: T -> bool)
    ensures Filter(a + b, p) == Filter(a, p) + Filter(b, p)
  {
    if |a| == 0 {
      assert a + b == b;
    } else {
      var ab := a + b;
      assert ab[0] == a[0] && ab[1..] == a[1..] + b;
      FilterConcat(a[1..], b, p);
      var rest := Filter(a[1..], p) + Filter(b, p);
      if p(a[0]) {
        assert Filter(ab, p) == [a[0]] + rest;
        assert [a[0]] + rest == ([a[0]] + Filter(a[1..], p)) + Filter(b, p);
      } else {
        assert Filter(ab, p) == rest;
      }
    }
  }

  lemma {:induction false} FilterNone<T>(a: seq<T>, p: T -> bool)
    requires forall i | 0 <= i < |a| :: !p(a[i])
    ensures Filter(a, p) == []
  {
    if |a| > 0 {
      FilterNone(a[1..], p);
    }
  }

  /** A count depends only on the multiset of values counted. */
  lemma CountPermutation<T(!new)>(a: seq<T>, b: seq<T>, p: T -> bool)
    requires multiset(a) == multiset(b)
    ensures CountWhere(a, p) == CountWhere(b, p)
  {
    FilterMultiset(a, p);
    FilterMultiset(b, p);
    var fa, fb := multiset(Filter(a, p)), multiset(Filter(b, p));
    forall x ensures fa[x] == fb[x] {
      if p(x) {
        assert multiset(a)[x] == multiset(b)[x];
      }
    }
    assert fa == fb;
    assert |fa| == |Filter(a, p)| && |fb| == |Filter(b, p)|;
  }

  /** When only the first `k` elements can satisfy `p`, at most `k` do. */
  lemma CountPrefixBound<T>(s: seq<T>, p: T -> bool, k: nat)
    requires k <= |s|
    requires forall i | k <= i < |s| :: !p(s[i])
    ensures CountWhere(s, p) <= k
  {
    assert s == s[..k] + s[k..];
    FilterConcat(s[..k], s[k..], p);
    FilterNone(s[k..], p);
  }

  /** When only the last `|s| - k` elements can satisfy `p`, at most that many do. */
  lemma CountSuffixBound<T>(s: seq<T>, p: T -> bool, k: nat)
    requires k <= |s|
    requires forall i | 0 <= i < k :: !p(s[i])
    ensures CountWhere(s, p) <= |s| - k
  {
    assert s == s[..k] + s[k..];
    FilterConcat(s[..k], s[k..], p);
    FilterNone(s[..k], p);
  }

  /** When the first `k` elements all satisfy `p`, at least `k` do. */
  lemma CountPrefixLower<T>(s: seq<T>, p: T -> bool, k: nat)
    requires k <= |s|
    requires forall i | 0 <= i < k :: p(s[i])
    ensures CountWhere(s, p) >= k
  {
    assert s == s[..k] + s[k..];
    FilterConcat(s[..k], s[k..], p);
    FilterAll(s[..k], p);
  }

  lemma {:induction false} FilterAll<T>(a: seq<T>, p: T -> bool)
    requires forall i | 0 <= i < |a| :: p(a[i])
    ensures Filter(a, p) == a
  {
    if |a| > 0 {
      FilterAll(a[1..], p);
    }
  }

  /** A weaker condition is met at least as often. */
  lemma {:induction false} CountMonotone<T>(xs: seq<T>, p: T -> bool, q: T -> bool)
    requires forall x :: p(x) ==> q(x)
    ensures CountWhere(xs, p) <= CountWhere(xs, q)
  {
    if |xs| > 0 {
      CountMonotone(xs[1..], p, q);
    }
  }

  // ---------------------------------------------------------------------------
  // Median: Series.median(skipna=True)
  // ---------------------------------------------------------------------------

  function Ascending(): (real, real) -> bool {
    (a: real, b: real) => a <= b
  }

  function Below(m: real): real -> bool {
    (x: real) => x < m
  }

  function Above(m: real): real -> bool {
    (x: real) => x > m
  }

  function AtMost(m: real): real -> bool {
    (x: real) => x <= m
  }

  /** `v` is the `k`-th smallest of `xs`, counting from 0: at most `k` of the values lie below
      it and more than `k` lie at or below it. */
  ghost predicate IsOrderStatistic(xs: seq<real>, v: real, k: nat) {
    CountWhere(xs, Below(v)) <= k < CountWhere(xs, AtMost(v))
  }

  /** The median of the values, None for no values (pandas' NaN): the middle value of the sorted
      values, or the mean of the two middle ones when their number is even. At most half of the
      values lie strictly below it and at most half strictly above. */
  function Median(xs: seq<real>): (m: Option<real>)
    ensures m.None? <==> |xs| == 0
    ensures m.Some? ==> CountWhere(xs, Below(m.value)) <= |xs| / 2
    ensures m.Some? ==> CountWhere(xs, Above(m.value)) <= |xs| / 2
    ensures m.Some? && |xs| % 2 == 1 ==> m.value in xs
    ensures m.Some? ==> exists a, b | a in xs && b in xs ::
      && IsOrderStatistic(xs, a, (|xs| - 1) / 2)
      && IsOrderStatistic(xs, b, |xs| / 2)
      && m.value == (a + b) / 2.0
  {
    if |xs| == 0 then None
    else
      assert TotalPreorder(Ascending());
      var s := Sort(xs, Ascending());
      MiddleOfSorted(xs, s);
      Some(Middle(s))
  }

  /** The middle value of a non-empty sequence, or the mean of its two middle values when their
      number is even. */
  function Middle(s: seq<real>): real
    requires |s| > 0
  {
    var h := |s| / 2;
    if |s| % 2 == 1 then s[h] else (s[h - 1] + s[h]) / 2.0
  }

  /** The middle of a sorted arrangement of `xs` has the median's properties. */
  lemma MiddleOfSorted(xs: seq<real>, s: seq<real>)
    requires |s| > 0 && multiset(s) == multiset(xs) && Sorted(s, Ascending())
    ensures CountWhere(xs, Below(Middle(s))) <= |xs| / 2
    ensures CountWhere(xs, Above(Middle(s))) <= |xs| / 2
    ensures |xs| % 2 == 1 ==> Middle(s) in xs
    ensures exists a, b | a in xs && b in xs ::
      && IsOrderStatistic(xs, a, (|xs| - 1) / 2)
      && IsOrderStatistic(xs, b, |xs| / 2)
      && Middle(s) == (a + b) / 2.0
  {
    var n := |s|;
    var h := n / 2;
    assert n == |multiset(s)| == |multiset(xs)| == |xs|;
    var lo := s[(n - 1) / 2];
    assert lo in multiset(s) && s[h] in multiset(s);
    assert lo in xs && s[h] in xs;
    assert Middle(s) == (lo + s[h]) / 2.0;
    SortedOrderStatistic(xs, s, (n - 1) / 2);
    SortedOrderStatistic(xs, s, h);
    MedianCounts(xs, s, Middle(s));
  }

  /** The element at position `k` of a sorted arrangement of `xs` is its `k`-th smallest. */
  lemma SortedOrderStatistic(xs: seq<real>, s: seq<real>, k: nat)
    requires multiset(s) == multiset(xs) && Sorted(s, Ascending()) && k < |s|
    ensures IsOrderStatistic(xs, s[k], k)
  {
    var v := s[k];
    CountPermutation(xs, s, Below(v));
    CountPermutation(xs, s, AtMost(v));
    forall i | k <= i < |s|
      ensures !Below(v)(s[i])
    {
      assert Ascending()(s[k], s[i]) || i == k;
    }
    CountPrefixBound(s, Below(v), k);
    forall i | 0 <= i < k + 1
      ensures AtMost(v)(s[i])
    {
      assert Ascending()(s[i], s[k]) || i == k;
    }
    CountPrefixLower(s, AtMost(v), k + 1);
  }

  /** A sequence has only one `k`-th smallest value. */
  lemma OrderStatisticUnique(xs: seq<real>, v: real, w: real, k: nat)
    requires IsOrderStatistic(xs, v, k) && IsOrderStatistic(xs, w, k)
    ensures v == w
  {
    if v < w {
      CountMonotone(xs, AtMost(v), Below(w));
    } else if w < v {
      CountMonotone(xs, AtMost(w), Below(v));
    }
  }

  /** The median is fixed by the values alone: it is the mean of the two middle order
      statistics, which coincide when the count is odd. */
  lemma MedianOfMiddle(xs: seq<real>, a: real, b: real)
    requires |xs| > 0
    requires IsOrderStatistic(xs, a, (|xs| - 1) / 2) && IsOrderStatistic(xs, b, |xs| / 2)
    ensures Median(xs) == Some((a + b) / 2.0)
  {
    MeanOfMiddleStatistics(xs, Median(xs).value, a, b);
  }

  /** A value that is the mean of some two middle order statistics is the mean of any two. */
  lemma MeanOfMiddleStatistics(xs: seq<real>, m: real, a: real, b: real)
    requires exists a', b' | a' in xs && b' in xs ::
      && IsOrderStatistic(xs, a', (|xs| - 1) / 2)
      && IsOrderStatistic(xs, b', |xs| / 2)
      && m == (a' + b') / 2.0
    requires IsOrderStatistic(xs, a, (|xs| - 1) / 2) && IsOrderStatistic(xs, b, |xs| / 2)
    ensures m == (a + b) / 2.0
  {
    var a', b' :| a' in xs && b' in xs
      && IsOrderStatistic(xs, a', (|xs| - 1) / 2) && IsOrderStatistic(xs, b', |xs| / 2)
      && m == (a' + b') / 2.0;
    OrderStatisticUnique(xs, a, a', (|xs| - 1) / 2);
    OrderStatisticUnique(xs, b, b', |xs| / 2);
  }

  /** With an even count the median is the mean of the two middle values. */
  lemma MedianOfTwo()
    ensures Median([1.0, 3.0]) == Some(2.0)
  {
    var xs := [1.0, 3.0];
    assert Filter(xs, Below(1.0)) == [] && Filter(xs, AtMost(1.0)) == [1.0];
    assert Filter(xs, Below(3.0)) == [1.0] && Filter(xs, AtMost(3.0)) == xs;
    MedianOfMiddle(xs, 1.0, 3.0);
  }

  lemma MedianCounts(xs: seq<real>, s: seq<real>, m: real)
    requires |s| > 0 && multiset(s) == multiset(xs) && Sorted(s, Ascending())
    requires m == Middle(s)
    ensures CountWhere(xs, Below(m)) <= |xs| / 2
    ensures CountWhere(xs, Above(m)) <= |xs| / 2
  {
    assert |xs| == |multiset(xs)| == |multiset(s)| == |s|;
    CountPermutation(xs, s, Below(m));
    CountPermutation(xs, s, Above(m));
    MedianBelowCount(s, m);
    MedianAboveCount(s, m);
  }

  /** Nothing from the middle position on lies below the median. */
  lemma MedianBelowCount(s: seq<real>, m: real)
    requires |s| > 0 && Sorted(s, Ascending())
    requires m == if |s| % 2 == 1 then s[|s| / 2] else (s[|s| / 2 - 1] + s[|s| / 2]) / 2.0
    ensures CountWhere(s, Below(m)) <= |s| / 2
  {
    var h := |s| / 2;
    assert m <= s[h];
    forall i | h <= i < |s|
      ensures !Below(m)(s[i])
    {
      assert Ascending()(s[h], s[i]) || h == i;
    }
    CountPrefixBound(s, Below(m), h);
  }

  /** Nothing before the middle position (or up to it, for an odd count) lies above the
      median. */
  lemma MedianAboveCount(s: seq<real>, m: real)
    requires |s| > 0 && Sorted(s, Ascending())
    requires m == if |s| % 2 == 1 then s[|s| / 2] else (s[|s| / 2 - 1] + s[|s| / 2]) / 2.0
    ensures CountWhere(s, Above(m)) <= |s| / 2
  {
    var h := |s| / 2;
    var k := if |s| % 2 == 1 then h + 1 else h;
    assert k > 0 && s[k - 1] <= m;
    forall i | 0 <= i < k
      ensures !Above(m)(s[i])
    {
      assert Ascending()(s[i], s[k - 1]) || i == k - 1;
    }
    CountSuffixBound(s, Above(m), k);
  }

  // ---------------------------------------------------------------------------
  // Sum and mean
  // ---------------------------------------------------------------------------

  /** `Series.sum()`: 0 for no values. */
  function Sum(xs: seq<real>): real {
    if |xs| == 0 then 0.0 else Sum(xs[..|xs| - 1]) + xs[|xs| - 1]
  }

  /** Summing splits over any division of the values into a front and a back part. */
  lemma {:induction false} SumConcat(a: seq<real>, b: seq<real>)
    ensures Sum(a + b) == Sum(a) + Sum(b)
  {
    if |b| == 0 {
      assert a + b == a;
    } else {
      var ab := a + b;
      assert ab[..|ab| - 1] == a + b[..|b| - 1];
      SumConcat(a, b[..|b| - 1]);
    }
  }

  /** `Series.mean()`: None (NaN) for no values, otherwise the value whose multiple by the count
      is the sum. */
  function Mean(xs: seq<real>): (m: Option<real>)
    ensures m.None? <==> |xs| == 0
    ensures m.Some? ==> m.value * |xs| as real == Sum(xs)
  {
    if |xs| == 0 then None else Some(Sum(xs) / |xs| as real)
  }

  lemma {:induction false} SumBounds(xs: seq<real>, lo: real, hi: real)
    requires forall i | 0 <= i < |xs| :: lo <= xs[i] <= hi
    ensures |xs| as real * lo <= Sum(xs) <= |xs| as real * hi
  {
    if |xs| > 0 {
      SumBounds(xs[..|xs| - 1], lo, hi);
    }
  }

  /** A mean lies between any lower and upper bound of the values. */
  lemma MeanBounds(xs: seq<real>, lo: real, hi: real)
    requires |xs| > 0
    requires forall i | 0 <= i < |xs| :: lo <= xs[i] <= hi
    ensures lo <= Mean(xs).value <= hi
  {
    SumBounds(xs, lo, hi);
    var n := |xs| as real;
    assert Mean(xs).value * n == Sum(xs);
  }
}
