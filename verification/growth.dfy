/** Q23: year-over-year growth of the yearly event count. The yearly counts are listed in year
    order, each next to the previous year's count and the percentage change from it; the missing
    values of the first year (and 0/0) are filled with 0, while a rise from a count of 0 stays
    infinite. */
module Growth {
  import opened Options
  import opened Frames
  import opened Sorting
  import opened Grouping
  import opened Queries
  import opened Summaries

  /** A percentage change, held exactly as `100 * delta / base` percent with `base > 0`, or
      `inf` when a positive count follows a count of 0. */
  datatype Change = Finite(delta: int, base: nat) | Infinite

  /** The percentage a finite change stands for. */
  function Percent(c: Change): real
    requires c.Finite? && c.base > 0
  {
    100.0 * c.delta as real / c.base as real
  }

  /** `(cnt - prev) / prev * 100` followed by `fillna(0)`: NaN (no previous year, or 0/0)
      becomes 0. Rounding to two decimals is not modelled. */
  function ChangeFrom(prev: Option<nat>, cnt: nat): (c: Change)
    ensures c.Infinite? <==> prev == Some(0) && cnt > 0
    ensures c.Finite? ==> c.base > 0
    ensures prev.None? || (prev == Some(0) && cnt == 0) ==> c.Finite? && c.delta == 0
  {
    match prev
    case None => Finite(0, 1)
    case Some(p) =>
      if p > 0 then Finite(cnt - p, p)
      else if cnt > 0 then Infinite
      else Finite(0, 1)
  }

  /** A change from a positive count is finite, and grows that count into the new one. */
  lemma ChangeRebuilds(p: nat, cnt: nat, c: Change)
    requires p > 0 && c == ChangeFrom(Some(p), cnt)
    ensures c.Finite? && c.base > 0
    ensures cnt as real == p as real * (1.0 + Percent(c) / 100.0)
  {
    var d := (cnt - p) as real;
    assert Percent(c) / 100.0 == d / p as real;
    assert p as real * (d / p as real) == d;
  }

  /** The change is positive exactly when the count rose, and zero when it stayed. */
  lemma ChangeSign(p: nat, cnt: nat)
    requires p > 0
    ensures Percent(ChangeFrom(Some(p), cnt)) > 0.0 <==> cnt > p
    ensures Percent(ChangeFrom(Some(p), cnt)) == 0.0 <==> cnt == p
  {
    var d := (cnt - p) as real;
    assert Percent(ChangeFrom(Some(p), cnt)) == 100.0 * d / p as real;
    if d > 0.0 {
      assert 100.0 * d / p as real > 0.0;
    } else if d < 0.0 {
      assert 100.0 * d / p as real < 0.0;
    }
  }

  /** The growth column for a list of counts in year order. */
  function Changes(counts: seq<nat>): (r: seq<Change>)
    ensures |r| == |counts|
    ensures |counts| > 0 ==> r[0] == Finite(0, 1)
    ensures forall i | 0 < i < |counts| :: r[i] == ChangeFrom(Some(counts[i - 1]), counts[i])
  {
    seq(|counts|, i requires 0 <= i < |counts| => ChangeFrom(if i == 0 then None else Some(counts[i - 1]), counts[i]))
  }

  /** The worked example: 100, 150 and 90 events give growth 0 %, 50 % and -40 %. */
  lemma ChangesExample()
    ensures var r := Changes([100, 150, 90]);
      Percent(r[0]) == 0.0 && Percent(r[1]) == 50.0 && Percent(r[2]) == -40.0
  {
    var r := Changes([100, 150, 90]);
    assert r[1] == ChangeFrom(Some(100), 150) == Finite(50, 100);
    assert r[2] == ChangeFrom(Some(150), 90) == Finite(-60, 150);
  }

  /** One row of the result: `year`, `cnt`, `prev` (0 for the first year) and `growth_pct`. */
  datatype YearGrowth = YearGrowth(year: int, cnt: nat, prev: nat, growth: Change)

  /** Row `i` of the result, from the yearly counts in year order. */
  function GrowthRow(ranking: seq<Summary<int, nat>>, i: nat): YearGrowth
    requires i < |ranking|
  {
    if i == 0 then YearGrowth(ranking[0].key, ranking[0].value, 0, ChangeFrom(None, ranking[0].value))
    else YearGrowth(ranking[i].key, ranking[i].value, ranking[i - 1].value, ChangeFrom(Some(ranking[i - 1].value), ranking[i].value))
  }

  /** The yearly rows with the count they follow and the change from it. */
  function GrowthTable(ranking: seq<Summary<int, nat>>): (r: seq<YearGrowth>)
    ensures |r| == |ranking| && forall i | 0 <= i < |ranking| :: r[i] == GrowthRow(ranking, i)
    ensures forall i | 0 <= i < |ranking| :: r[i].year == ranking[i].key && r[i].cnt == ranking[i].value
    ensures |r| > 0 ==> r[0].prev == 0 && r[0].growth == Finite(0, 1)
    ensures forall i | 0 < i < |r| :: r[i].prev == r[i - 1].cnt && r[i].growth == ChangeFrom(Some(r[i].prev), r[i].cnt)
  {
    seq(|ranking|, i requires 0 <= i < |ranking| => GrowthRow(ranking, i))
  }

  /** The growth column of the table is the growth of its count column. */
  lemma GrowthColumn(ranking: seq<Summary<int, nat>>, counts: seq<nat>)
    requires |counts| == |ranking| && forall i | 0 <= i < |ranking| :: counts[i] == ranking[i].value
    ensures forall i | 0 <= i < |ranking| :: GrowthTable(ranking)[i].growth == Changes(counts)[i]
  {
  }

  /** `out` lists the yearly counts of events with an `id` in year order, as a ranking of
      the years by key, next to the growth columns. */
  ghost predicate YearTable(rows: seq<Row>, out: seq<YearGrowth>) {
    exists ranking: seq<Summary<int, nat>> ::
      IsRanking(rows, YearKey, CountOf("id"), Always(), ByIntKey(), Ascending, ranking) &&
      |out| == |ranking| &&
      forall i | 0 <= i < |ranking| :: out[i].year == ranking[i].key && out[i].cnt == ranking[i].value
  }

  /** The events with an `id` counted per year, in year order. */
  function YearCounts(rows: seq<Row>): (r: seq<Summary<int, nat>>)
    ensures IsRanking(rows, YearKey, CountOf("id"), Always(), ByIntKey(), Ascending, r)
  {
    RankGroups(rows, YearKey, CountOf("id"), Always(), ByIntKey(), Ascending)
  }

  lemma GrowthTableOfRanking(rows: seq<Row>, ranking: seq<Summary<int, nat>>)
    requires IsRanking(rows, YearKey, CountOf("id"), Always(), ByIntKey(), Ascending, ranking)
    ensures YearTable(rows, GrowthTable(ranking))
  {
  }

  /** The table built from the yearly counts of `rows` lists them. */
  function YearGrowthTable(rows: seq<Row>): (out: seq<YearGrowth>)
    ensures YearTable(rows, out)
    ensures |out| > 0 ==> out[0].prev == 0 && out[0].growth == Finite(0, 1)
    ensures forall i | 0 < i < |out| ::
      out[i].prev == out[i - 1].cnt && out[i].growth == ChangeFrom(Some(out[i].prev), out[i].cnt)
  {
    var ranking := YearCounts(rows);
    GrowthTableOfRanking(rows, ranking);
    GrowthTable(ranking)
  }

  /** Q23: the yearly counts of events with an `id`, in year order, each with the previous
      year's count and the growth from it. */
  function YearOverYear(t: Table): (o: Outcome<seq<YearGrowth>>)
    ensures !o.Failed?
    ensures !o.Warned?
    ensures o.Raised? <==> "time" !in t.columns || "id" !in t.columns
    ensures o.Shown? ==> YearTable(t.rows, o.out)
    ensures o.Shown? && |o.out| > 0 ==> o.out[0].prev == 0 && o.out[0].growth == Finite(0, 1)
    ensures o.Shown? ==> forall i | 0 < i < |o.out| ::
      o.out[i].prev == o.out[i - 1].cnt && o.out[i].growth == ChangeFrom(Some(o.out[i].prev), o.out[i].cnt)
  {
    if "time" !in t.columns then Raised("time")
    else if "id" !in t.columns then Raised("id")
    else
      Shown(YearGrowthTable(t.rows))
  }
}
