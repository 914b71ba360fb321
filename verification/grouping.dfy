/** `DataFrame.groupby(key)` followed by an aggregation, a filter on the aggregate, a sort on it
    and possibly `head(k)`: the shape most dashboard queries share. Rows whose key is missing
    belong to no group (`dropna=True`, pandas' default). */
module Grouping {
  import opened Options
  import opened Frames
  import opened Sorting

  /** The row's key is `k`. */
  function HasKey<K(==)>(key: Row -> Option<K>, k: K): Row -> bool {
    (r: Row) => key(r) == Some(k)
  }

  /** The rows of group `k`, in row order: `df.groupby(key).get_group(k)`. */
  function GroupOf<K(==)>(rows: seq<Row>, key: Row -> Option<K>, k: K): seq<Row> {
    Filter(rows, HasKey(key, k))
  }

  /** Some row has key `k`. */
  ghost predicate Occurs<K>(rows: seq<Row>, key: Row -> Option<K>, k: K) {
    exists i | 0 <= i < |rows| :: key(rows[i]) == Some(k)
  }

  /** The distinct keys of the rows, in order of first appearance. */
  function KeysOf<K(==)>(rows: seq<Row>, key: Row -> Option<K>): (ks: seq<K>)
    ensures Distinct(ks)
    ensures forall i | 0 <= i < |rows| && key(rows[i]).Some? :: key(rows[i]).value in ks
    ensures forall j | 0 <= j < |ks| :: Occurs(rows, key, ks[j])
  {
    if |rows| == 0 then []
    else
      var n := |rows| - 1;
      var init := KeysOf(rows[..n], key);
      assert forall i | 0 <= i < n :: rows[..n][i] == rows[i];
      var last := key(rows[n]);
      if last.Some? && last.value !in init then init + [last.value] else init
  }

  /** One output row of an aggregation: the group's key and its aggregate. */
  datatype Summary<K, A> = Summary(key: K, value: A)

  /** The group table: one summary per key, each the aggregate `f` of exactly the rows with that
      key, and every key that occurs. */
  ghost predicate GroupTable<K, A>(rows: seq<Row>, key: Row -> Option<K>, f: seq<Row> -> A,
                                       keep: A -> bool, r: seq<Summary<K, A>>) {
    && (forall j | 0 <= j < |r| ::
          r[j].value == f(GroupOf(rows, key, r[j].key)) && keep(r[j].value) && Occurs(rows, key, r[j].key))
    && (forall j, l | 0 <= j < l < |r| :: r[j].key != r[l].key)
  }

  /** Every group whose aggregate passes `keep` has a summary in `r`. */
  ghost predicate CoversGroups<K, A>(rows: seq<Row>, key: Row -> Option<K>, f: seq<Row> -> A,
                                         keep: A -> bool, r: seq<Summary<K, A>>) {
    forall i | 0 <= i < |rows| && key(rows[i]).Some? && keep(f(GroupOf(rows, key, key(rows[i]).value))) ::
      exists j | 0 <= j < |r| :: r[j].key == key(rows[i]).value
  }

  /** `r` is the whole group table restricted to `keep`, ordered by `metric`. */
  ghost predicate IsRanking<K, A>(rows: seq<Row>, key: Row -> Option<K>, f: seq<Row> -> A, keep: A -> bool,
                                      metric: Summary<K, A> -> Option<real>, dir: Direction, r: seq<Summary<K, A>>) {
    && GroupTable(rows, key, f, keep, r)
    && CoversGroups(rows, key, f, keep, r)
    && SortedByKey(r, metric, dir)
  }

  /** `r` is the first `k` summaries of that ranking: at most `k` of them, all of them when fewer
      than `k` are returned, and no group left out ranks ahead of one returned. */
  ghost predicate IsTopGroups<K, A>(rows: seq<Row>, key: Row -> Option<K>, f: seq<Row> -> A, keep: A -> bool,
                                        metric: Summary<K, A> -> Option<real>, dir: Direction, k: nat,
                                        r: seq<Summary<K, A>>) {
    && GroupTable(rows, key, f, keep, r)
    && SortedByKey(r, metric, dir)
    && |r| <= k
    && (|r| < k ==> CoversGroups(rows, key, f, keep, r))
    && forall j, i | 0 <= j < |r| && 0 <= i < |rows| && key(rows[i]).Some? &&
                     keep(f(GroupOf(rows, key, key(rows[i]).value))) &&
                     (forall l | 0 <= l < |r| :: r[l].key != key(rows[i]).value) ::
         KeyLe(metric(r[j]), metric(Summary(key(rows[i]).value, f(GroupOf(rows, key, key(rows[i]).value)))), dir)
  }

  /** `df.groupby(key).agg(f)`: one summary per key. */
  function SummarizeBy<K(==), A>(rows: seq<Row>, key: Row -> Option<K>, f: seq<Row> -> A): (ss: seq<Summary<K, A>>)
    ensures GroupTable(rows, key, f, (a: A) => true, ss)
    ensures CoversGroups(rows, key, f, (a: A) => true, ss)
  {
    var ks := KeysOf(rows, key);
    var ss := seq(|ks|, j requires 0 <= j < |ks| => Summary(ks[j], f(GroupOf(rows, key, ks[j]))));
    assert forall j | 0 <= j < |ss| :: ss[j].key == ks[j];
    ss
  }

  lemma {:induction false} DistinctAtMostOnce<T>(xs: seq<T>)
    requires Distinct(xs)
    ensures forall x :: multiset(xs)[x] <= 1
  {
    if |xs| > 0 {
      assert xs == [xs[0]] + xs[1..];
      assert Distinct(xs[1..]) by {
        forall i, j | 0 <= i < j < |xs[1..]| ensures xs[1..][i] != xs[1..][j] {
          assert xs[1..][i] == xs[i + 1] && xs[1..][j] == xs[j + 1];
        }
      }
      DistinctAtMostOnce(xs[1..]);
      assert xs[0] !in xs[1..];
    }
  }

  lemma TwoCopies<T>(ys: seq<T>, i: int, j: int)
    requires 0 <= i < j < |ys| && ys[i] == ys[j]
    ensures multiset(ys)[ys[j]] >= 2
  {
    assert ys == ys[..j] + [ys[j]] + ys[j + 1..];
    assert ys[i] in ys[..j];
  }

  lemma AtMostOnceDistinct<T>(ys: seq<T>)
    requires forall x :: multiset(ys)[x] <= 1
    ensures Distinct(ys)
  {
    forall i, j | 0 <= i < j < |ys| ensures ys[i] != ys[j] {
      if ys[i] == ys[j] {
        TwoCopies(ys, i, j);
      }
    }
  }

  /** Summaries drawn once each from a group table form a group table. */
  lemma SubTable<K, A>(rows: seq<Row>, key: Row -> Option<K>, f: seq<Row> -> A, keep: A -> bool,
                           ss: seq<Summary<K, A>>, r: seq<Summary<K, A>>)
    requires GroupTable(rows, key, f, (a: A) => true, ss)
    requires multiset(r) <= multiset(ss)
    requires forall j | 0 <= j < |r| :: keep(r[j].value)
    ensures GroupTable(rows, key, f, keep, r)
  {
    assert Distinct(ss);
    DistinctAtMostOnce(ss);
    AtMostOnceDistinct(r);
    forall j | 0 <= j < |r|
      ensures r[j].value == f(GroupOf(rows, key, r[j].key)) && Occurs(rows, key, r[j].key)
    {
      assert r[j] in multiset(ss);
    }
  }

  /** Keeping the summaries that pass `keep` and reordering them keeps the group table complete
      for `keep`. */
  lemma KeptCovers<K, A>(rows: seq<Row>, key: Row -> Option<K>, f: seq<Row> -> A, keep: A -> bool,
                         ss: seq<Summary<K, A>>, r: seq<Summary<K, A>>)
    requires GroupTable(rows, key, f, (a: A) => true, ss) && CoversGroups(rows, key, f, (a: A) => true, ss)
    requires multiset(r) == multiset(Filter(ss, (s: Summary<K, A>) => keep(s.value)))
    ensures CoversGroups(rows, key, f, keep, r)
  {
    var kept := Filter(ss, (s: Summary<K, A>) => keep(s.value));
    forall i | 0 <= i < |rows| && key(rows[i]).Some? && keep(f(GroupOf(rows, key, key(rows[i]).value)))
      ensures exists j | 0 <= j < |r| :: r[j].key == key(rows[i]).value
    {
      var j :| 0 <= j < |ss| && ss[j].key == key(rows[i]).value;
      assert ss[j] in kept;
      assert ss[j] in multiset(r);
    }
  }

  /** The kept summaries form a group table for `keep`. */
  lemma KeptTable<K, A>(rows: seq<Row>, key: Row -> Option<K>, f: seq<Row> -> A, keep: A -> bool,
                        ss: seq<Summary<K, A>>, r: seq<Summary<K, A>>)
    requires GroupTable(rows, key, f, (a: A) => true, ss)
    requires multiset(r) == multiset(Filter(ss, (s: Summary<K, A>) => keep(s.value)))
    ensures GroupTable(rows, key, f, keep, r)
  {
    var kept := Filter(ss, (s: Summary<K, A>) => keep(s.value));
    FilterMultiset(ss, (s: Summary<K, A>) => keep(s.value));
    assert multiset(kept) <= multiset(ss);
    forall j | 0 <= j < |r| ensures keep(r[j].value) {
      assert r[j] in multiset(kept);
    }
    SubTable(rows, key, f, keep, ss, r);
  }

  /** The group table restricted to `keep`, sorted by `metric` in direction `dir`. */
  function RankGroups<K(==, !new), A(!new)>(rows: seq<Row>, key: Row -> Option<K>, f: seq<Row> -> A, keep: A -> bool,
                                            metric: Summary<K, A> -> Option<real>, dir: Direction): (r: seq<Summary<K, A>>)
    ensures IsRanking(rows, key, f, keep, metric, dir, r)
  {
    var ss := SummarizeBy(rows, key, f);
    var r := SortBy(Filter(ss, (s: Summary<K, A>) => keep(s.value)), metric, dir);
    KeptTable(rows, key, f, keep, ss, r);
    KeptCovers(rows, key, f, keep, ss, r);
    r
  }

  /** The group table restricted to `keep`, sorted by the comparison `le`. */
  function OrderGroups<K(==, !new), A(!new)>(rows: seq<Row>, key: Row -> Option<K>, f: seq<Row> -> A, keep: A -> bool,
                                             le: (Summary<K, A>, Summary<K, A>) -> bool): (r: seq<Summary<K, A>>)
    requires TotalPreorder(le)
    ensures GroupTable(rows, key, f, keep, r) && CoversGroups(rows, key, f, keep, r)
    ensures Sorted(r, le)
  {
    var ss := SummarizeBy(rows, key, f);
    var r := Sort(Filter(ss, (s: Summary<K, A>) => keep(s.value)), le);
    KeptTable(rows, key, f, keep, ss, r);
    KeptCovers(rows, key, f, keep, ss, r);
    r
  }

  /** In a sorted sequence, every entry of a prefix may precede every entry after it. */
  lemma PrefixPrecedes<T>(all: seq<T>, n: nat, m: nat, metric: T -> Option<real>, dir: Direction)
    requires SortedByKey(all, metric, dir) && n <= m < |all|
    ensures forall j | 0 <= j < n :: KeyLe(metric(all[..n][j]), metric(all[m]), dir)
  {
  }

  lemma PrefixIndex<T>(all: seq<T>, r: seq<T>, m: nat)
    requires |r| <= |all| && r == all[..|r|] && m < |all|
    ensures (m < |r| && r[m] == all[m]) || |r| <= m
  {
  }

  /** A prefix of a ranking is a top-`k` selection. */
  lemma RankingPrefix<K, A>(rows: seq<Row>, key: Row -> Option<K>, f: seq<Row> -> A, keep: A -> bool,
                            metric: Summary<K, A> -> Option<real>, dir: Direction, k: nat,
                            all: seq<Summary<K, A>>, r: seq<Summary<K, A>>)
    requires IsRanking(rows, key, f, keep, metric, dir, all)
    requires |r| == Min(k, |all|) && r == all[..|r|]
    ensures IsTopGroups(rows, key, f, keep, metric, dir, k, r)
  {
    assert GroupTable(rows, key, f, keep, r) by {
      forall j | 0 <= j < |r| ensures r[j] == all[j] { }
    }
    forall j, i | 0 <= j < |r| && 0 <= i < |rows| && key(rows[i]).Some? &&
                  keep(f(GroupOf(rows, key, key(rows[i]).value))) &&
                  (forall l | 0 <= l < |r| :: r[l].key != key(rows[i]).value)
      ensures KeyLe(metric(r[j]), metric(Summary(key(rows[i]).value, f(GroupOf(rows, key, key(rows[i]).value)))), dir)
    {
      RankingPrefixFirst(rows, key, f, keep, metric, dir, all, r, j, i);
    }
  }

  /** A group kept out of a ranking's prefix ranks no earlier than any entry of the prefix. */
  lemma RankingPrefixFirst<K, A>(rows: seq<Row>, key: Row -> Option<K>, f: seq<Row> -> A, keep: A -> bool,
                                 metric: Summary<K, A> -> Option<real>, dir: Direction,
                                 all: seq<Summary<K, A>>, r: seq<Summary<K, A>>, j: nat, i: nat)
    requires IsRanking(rows, key, f, keep, metric, dir, all)
    requires |r| <= |all| && r == all[..|r|]
    requires j < |r| && i < |rows| && key(rows[i]).Some? && keep(f(GroupOf(rows, key, key(rows[i]).value)))
    requires forall l | 0 <= l < |r| :: r[l].key != key(rows[i]).value
    ensures KeyLe(metric(r[j]), metric(Summary(key(rows[i]).value, f(GroupOf(rows, key, key(rows[i]).value)))), dir)
  {
    var m :| 0 <= m < |all| && all[m].key == key(rows[i]).value;
    assert all[m] == Summary(key(rows[i]).value, f(GroupOf(rows, key, key(rows[i]).value)));
    PrefixIndex(all, r, m);
    PrefixPrecedes(all, |r|, m, metric, dir);
  }

  /** The first `k` entries of the ranking. */
  function TopGroups<K(==, !new), A(!new)>(rows: seq<Row>, key: Row -> Option<K>, f: seq<Row> -> A, keep: A -> bool,
                                           metric: Summary<K, A> -> Option<real>, dir: Direction, k: nat): (r: seq<Summary<K, A>>)
    ensures IsTopGroups(rows, key, f, keep, metric, dir, k, r)
  {
    var all := RankGroups(rows, key, f, keep, metric, dir);
    RankingPrefix(rows, key, f, keep, metric, dir, k, all, Head(all, k));
    Head(all, k)
  }
}
