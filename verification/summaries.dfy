/** The dashboard's grouped queries: Q4-Q10, Q14-Q17, Q19-Q21, Q24-Q27 and Q30. Each groups the
    rows by a key, aggregates every group, may drop groups by their aggregate, orders the groups
    and may keep only the first few. */
module Summaries {
  import opened Options
  import opened Strings
  import opened Frames
  import opened Sorting
  import opened Stats
  import opened Grouping
  import opened Queries
  import Calendar

  // ---------------------------------------------------------------------------
  // Group keys
  // ---------------------------------------------------------------------------

  /** `groupby("country")`. */
  function CountryKey(r: Row): Option<Value> {
    Cell(r, "country")
  }

  /** `groupby(c)` / `df[c].value_counts()` on any column. */
  function ColumnKey(c: string): Row -> Option<Value> {
    (r: Row) => Cell(r, c)
  }

  /** `groupby(df["time"].dt.year)`; NaT rows belong to no group. */
  function YearKey(r: Row): Option<int> {
    match StampAt(r, "time")
    case Some(ms) => Some(Calendar.YearOf(ms))
    case None => None
  }

  function MonthKey(r: Row): Option<int> {
    match StampAt(r, "time")
    case Some(ms) => Some(Calendar.MonthOf(ms))
    case None => None
  }

  function HourKey(r: Row): Option<int> {
    match StampAt(r, "time")
    case Some(ms) => Some(Calendar.HourOf(ms))
    case None => None
  }

  function DayKey(r: Row): Option<string> {
    match StampAt(r, "time")
    case Some(ms) => Some(Calendar.DayNameOf(ms))
    case None => None
  }

  // ---------------------------------------------------------------------------
  // Aggregates
  // ---------------------------------------------------------------------------

  /** `.mean()` of column `c` over a group: NaN (None) when the group has no number there. */
  function MeanOf(c: string): seq<Row> -> Option<real> {
    (rows: seq<Row>) => Mean(NumbersIn(rows, c))
  }

  /** `.count()` of column `c` over a group: its non-missing cells. */
  function CountOf(c: string): seq<Row> -> nat {
    (rows: seq<Row>) => CountWhere(rows, (r: Row) => Cell(r, c).Some?)
  }

  /** `.sum()` of column `c` over a group: 0 when it has no number there. */
  function SumOf(c: string): seq<Row> -> real {
    (rows: seq<Row>) => Sum(NumbersIn(rows, c))
  }

  /** `value_counts()`: the size of the group. */
  function Size(rows: seq<Row>): nat {
    |rows|
  }

  /** `.agg(["count", "mean"])`. */
  datatype CountMean = CountMean(count: nat, mean: Option<real>)

  function CountAndMean(c: string): seq<Row> -> CountMean {
    (rows: seq<Row>) => CountMean(CountOf(c)(rows), MeanOf(c)(rows))
  }

  function Always<A>(): A -> bool {
    (a: A) => true
  }

  // ---------------------------------------------------------------------------
  // Orders on summaries
  // ---------------------------------------------------------------------------

  function ByAggregate<K>(): Summary<K, Option<real>> -> Option<real> {
    (s: Summary<K, Option<real>>) => s.value
  }

  function ByCount<K>(): Summary<K, nat> -> Option<real> {
    (s: Summary<K, nat>) => Some(s.value as real)
  }

  function ByMean<K>(): Summary<K, CountMean> -> Option<real> {
    (s: Summary<K, CountMean>) => s.value.mean
  }

  function ByIntKey<A>(): Summary<int, A> -> Option<real> {
    (s: Summary<int, A>) => Some(s.key as real)
  }

  // ---------------------------------------------------------------------------
  // Q4, Q25: mean depth per country
  // ---------------------------------------------------------------------------

  /** Q4: the mean depth of every country, deepest first (the continent mapping the title asks
      for does not exist; the branch groups by country). */
  function DepthByCountry(t: Table): (o: Outcome<seq<Summary<Value, Option<real>>>>)
    ensures !o.Failed?
    ensures o.Warned? <==> "country" !in t.columns
    ensures o.Raised? <==> "country" in t.columns && "depth_km" !in t.columns
    ensures o.Shown? ==>
      IsRanking(t.rows, CountryKey, MeanOf("depth_km"), Always(), ByAggregate(), Descending, o.out)
  {
    if "country" !in t.columns then Warned("No country column present.")
    else if "depth_km" !in t.columns then Raised("depth_km")
    else Shown(RankGroups(t.rows, CountryKey, MeanOf("depth_km"), Always(), ByAggregate(), Descending))
  }

  /** `latitude.between(-5, 5)` (both ends included) and a known country. */
  predicate NearEquator(r: Row) {
    NumAt(r, "latitude").Some? && -5.0 <= NumAt(r, "latitude").value <= 5.0 && Cell(r, "country").Some?
  }

  /** Q25: the mean depth per country over the events within 5 degrees of the equator. */
  function EquatorialDepth(t: Table): (o: Outcome<seq<Summary<Value, Option<real>>>>)
    ensures !o.Failed?
    ensures o.Warned? <==> "latitude" !in t.columns || "depth_km" !in t.columns
    ensures o.Raised? <==> !o.Warned? && "country" !in t.columns
    ensures o.Shown? ==>
      IsRanking(Filter(t.rows, NearEquator), CountryKey, MeanOf("depth_km"), Always(), ByAggregate(), Descending, o.out)
  {
    if "latitude" !in t.columns || "depth_km" !in t.columns then Warned("latitude or depth_km missing.")
    else if "country" !in t.columns then Raised("country")
    else Shown(RankGroups(Filter(t.rows, NearEquator), CountryKey, MeanOf("depth_km"), Always(), ByAggregate(), Descending))
  }

  /** An element a filter keeps is an input element that passes. */
  lemma FilteredFrom(rows: seq<Row>, p: Row -> bool, i: int)
    requires 0 <= i < |Filter(rows, p)|
    ensures exists k | 0 <= k < |rows| :: p(rows[k]) && rows[k] == Filter(rows, p)[i]
  {
    var x := Filter(rows, p)[i];
    assert x in Filter(rows, p);
    var k :| 0 <= k < |rows| && rows[k] == x;
  }

  /** Every group Q25 shows is the country of some event within the band. */
  lemma EquatorialGroups(t: Table, j: int)
    requires EquatorialDepth(t).Shown? && 0 <= j < |EquatorialDepth(t).out|
    ensures var s := EquatorialDepth(t).out[j];
      exists i | 0 <= i < |t.rows| :: NearEquator(t.rows[i]) && Cell(t.rows[i], "country") == Some(s.key)
  {
    var rows := Filter(t.rows, NearEquator);
    var s := EquatorialDepth(t).out[j];
    assert Occurs(rows, CountryKey, s.key);
    var i :| 0 <= i < |rows| && CountryKey(rows[i]) == Some(s.key);
    FilteredFrom(t.rows, NearEquator, i);
  }

  // ---------------------------------------------------------------------------
  // Q5, Q21: magnitude statistics per group
  // ---------------------------------------------------------------------------

  /** Q5: the count and mean magnitude of each magnitude type, highest mean first. */
  function MagnitudeByType(t: Table): (o: Outcome<seq<Summary<Value, CountMean>>>)
    ensures !o.Failed?
    ensures o.Warned? <==> "magType" !in t.columns
    ensures o.Raised? <==> "magType" in t.columns && "mag" !in t.columns
    ensures o.Shown? ==>
      IsRanking(t.rows, ColumnKey("magType"), CountAndMean("mag"), Always(), ByMean(), Descending, o.out)
  {
    if "magType" !in t.columns then Warned("magType column not found.")
    else if "mag" !in t.columns then Raised("mag")
    else Shown(RankGroups(t.rows, ColumnKey("magType"), CountAndMean("mag"), Always(), ByMean(), Descending))
  }

  /** The year filter of Q21: `time.dt.year >= cutoff`; NaT compares false. */
  function SinceYear(cutoff: int): Row -> bool {
    (r: Row) => YearKey(r).Some? && YearKey(r).value >= cutoff
  }

  /** At least ten events with a magnitude. */
  function WellSampled(a: CountMean): bool {
    a.count >= 10
  }

  /** Q21 with the current year as a parameter (the source reads the clock): over the events of
      the last ten years, the five countries of highest mean magnitude among those with at least
      ten measured events. */
  function RecentStrongCountries(t: Table, currentYear: int): (o: Outcome<seq<Summary<Value, CountMean>>>)
    ensures !o.Failed?
    ensures !o.Warned?
    ensures o.Raised? <==> "time" !in t.columns || "country" !in t.columns || "mag" !in t.columns
    ensures o.Shown? ==>
      IsTopGroups(Filter(t.rows, SinceYear(currentYear - 10)), CountryKey, CountAndMean("mag"), WellSampled,
                  ByMean(), Descending, 5, o.out)
  {
    if "time" !in t.columns then Raised("time")
    else if "country" !in t.columns then Raised("country")
    else if "mag" !in t.columns then Raised("mag")
    else Shown(TopGroups(Filter(t.rows, SinceYear(currentYear - 10)), CountryKey, CountAndMean("mag"), WellSampled,
                         ByMean(), Descending, 5))
  }

  // ---------------------------------------------------------------------------
  // Q6-Q9, Q19: calendar groupings
  // ---------------------------------------------------------------------------

  /** Q6: the year with the most events (counting rows with an `id`). */
  function BusiestYear(t: Table): (o: Outcome<seq<Summary<int, nat>>>)
    ensures !o.Failed?
    ensures !o.Warned?
    ensures o.Raised? <==> "time" !in t.columns || "id" !in t.columns
    ensures o.Shown? ==> IsTopGroups(t.rows, YearKey, CountOf("id"), Always(), ByCount(), Descending, 1, o.out)
  {
    if "time" !in t.columns then Raised("time")
    else if "id" !in t.columns then Raised("id")
    else Shown(TopGroups(t.rows, YearKey, CountOf("id"), Always(), ByCount(), Descending, 1))
  }

  /** Q7: the calendar month (1-12, over all years) with the most events. */
  function BusiestMonth(t: Table): (o: Outcome<seq<Summary<int, nat>>>)
    ensures !o.Failed?
    ensures !o.Warned?
    ensures o.Raised? <==> "time" !in t.columns || "id" !in t.columns
    ensures o.Shown? ==> IsTopGroups(t.rows, MonthKey, CountOf("id"), Always(), ByCount(), Descending, 1, o.out)
    ensures o.Shown? ==> forall j | 0 <= j < |o.out| :: 1 <= o.out[j].key <= 12
  {
    if "time" !in t.columns then Raised("time")
    else if "id" !in t.columns then Raised("id")
    else
      var out := TopGroups(t.rows, MonthKey, CountOf("id"), Always(), ByCount(), Descending, 1);
      forall j | 0 <= j < |out| ensures 1 <= out[j].key <= 12 {
        var i :| 0 <= i < |t.rows| && MonthKey(t.rows[i]) == Some(out[j].key);
      }
      Shown(out)
  }

  /** Q8: event counts per weekday name, busiest first. */
  function WeekdayCounts(t: Table): (o: Outcome<seq<Summary<string, nat>>>)
    ensures !o.Failed?
    ensures !o.Warned?
    ensures o.Raised? <==> "time" !in t.columns || "id" !in t.columns
    ensures o.Shown? ==> IsRanking(t.rows, DayKey, CountOf("id"), Always(), ByCount(), Descending, o.out)
    ensures o.Shown? ==> |o.out| <= 7 && forall j | 0 <= j < |o.out| :: o.out[j].key in Calendar.DayNames
  {
    if "time" !in t.columns then Raised("time")
    else if "id" !in t.columns then Raised("id")
    else
      var out := RankGroups(t.rows, DayKey, CountOf("id"), Always(), ByCount(), Descending);
      forall j | 0 <= j < |out| ensures out[j].key in Calendar.DayNames {
        var i :| 0 <= i < |t.rows| && DayKey(t.rows[i]) == Some(out[j].key);
      }
      DistinctWithin(out, Calendar.DayNames);
      Shown(out)
  }

  /** Summaries with distinct keys drawn from a list of `n` names number at most `n`. */
  lemma DistinctWithin<A>(out: seq<Summary<string, A>>, names: seq<string>)
    requires forall j, l | 0 <= j < l < |out| :: out[j].key != out[l].key
    requires forall j | 0 <= j < |out| :: out[j].key in names
    ensures |out| <= |names|
  {
    var keys := set j | 0 <= j < |out| :: out[j].key;
    var all := set n | n in names;
    assert keys <= all;
    SubsetSize(keys, all);
    SetOfSeqSize(names);
    InjectiveSize(out);
  }

  lemma {:induction false} SubsetSize<T>(a: set<T>, b: set<T>)
    requires a <= b
    ensures |a| <= |b|
    decreases |a|
  {
    if a != {} {
      var x :| x in a;
      SubsetSize(a - {x}, b - {x});
    }
  }

  lemma {:induction false} SetOfSeqSize<T>(xs: seq<T>)
    ensures |set x | x in xs| <= |xs|
  {
    if |xs| > 0 {
      SetOfSeqSize(xs[1..]);
      assert (set x | x in xs) == (set x | x in xs[1..]) + {xs[0]};
    }
  }

  lemma {:induction false} InjectiveSize<A>(out: seq<Summary<string, A>>)
    requires forall j, l | 0 <= j < l < |out| :: out[j].key != out[l].key
    ensures |set j | 0 <= j < |out| :: out[j].key| == |out|
  {
    if |out| > 0 {
      var rest := out[1..];
      InjectiveSize(rest);
      var ks := set j | 0 <= j < |out| :: out[j].key;
      var rs := set j | 0 <= j < |rest| :: rest[j].key;
      assert ks == rs + {out[0].key} by {
        forall k | k in ks ensures k in rs + {out[0].key} {
          var j :| 0 <= j < |out| && out[j].key == k;
          if j > 0 {
            assert rest[j - 1].key == k;
          }
        }
        forall k | k in rs ensures k in ks {
          var j :| 0 <= j < |rest| && rest[j].key == k;
          assert out[j + 1].key == k;
        }
      }
      assert out[0].key !in rs;
    }
  }

  /** Q9: event counts per hour of the day, in hour order. */
  function HourlyCounts(t: Table): (o: Outcome<seq<Summary<int, nat>>>)
    ensures !o.Failed?
    ensures !o.Warned?
    ensures o.Raised? <==> "time" !in t.columns || "id" !in t.columns
    ensures o.Shown? ==> IsRanking(t.rows, HourKey, CountOf("id"), Always(), ByIntKey(), Ascending, o.out)
    ensures o.Shown? ==> forall j | 0 <= j < |o.out| :: 0 <= o.out[j].key < 24
  {
    if "time" !in t.columns then Raised("time")
    else if "id" !in t.columns then Raised("id")
    else
      var out := RankGroups(t.rows, HourKey, CountOf("id"), Always(), ByIntKey(), Ascending);
      forall j | 0 <= j < |out| ensures 0 <= out[j].key < 24 {
        var i :| 0 <= i < |t.rows| && HourKey(t.rows[i]) == Some(out[j].key);
      }
      Shown(out)
  }

  /** Q19: tsunami flags summed per year; groupby's own key order, ascending years. */
  function TsunamisPerYear(t: Table): (o: Outcome<seq<Summary<int, real>>>)
    ensures !o.Failed?
    ensures o.Warned? <==> "tsunami" !in t.columns
    ensures o.Raised? <==> "tsunami" in t.columns && "time" !in t.columns
    ensures o.Shown? ==> IsRanking(t.rows, YearKey, SumOf("tsunami"), Always(), ByIntKey(), Ascending, o.out)
  {
    if "tsunami" !in t.columns then Warned("tsunami column missing.")
    else if "time" !in t.columns then Raised("time")
    else Shown(RankGroups(t.rows, YearKey, SumOf("tsunami"), Always(), ByIntKey(), Ascending))
  }

  /** In Q9 and Q19 no two groups share a key, so the ascending order is strict. */
  lemma StrictlyAscending<A>(out: seq<Summary<int, A>>, rows: seq<Row>, key: Row -> Option<int>, f: seq<Row> -> A)
    requires IsRanking(rows, key, f, Always(), ByIntKey(), Ascending, out)
    ensures forall j, l | 0 <= j < l < |out| :: out[j].key < out[l].key
  {
    forall j, l | 0 <= j < l < |out| ensures out[j].key < out[l].key {
      assert KeyLe(ByIntKey<A>()(out[j]), ByIntKey<A>()(out[l]), Ascending);
    }
  }

  // ---------------------------------------------------------------------------
  // Q10, Q14, Q15, Q20: value counts
  // ---------------------------------------------------------------------------

  /** `df[c].value_counts()`: the size of each group of equal non-missing values, largest
      first; the warning when the column is absent. */
  function ValueCounts(t: Table, c: string, message: string): (o: Outcome<seq<Summary<Value, nat>>>)
    ensures !o.Failed?
    ensures !o.Raised?
    ensures o.Warned? <==> c !in t.columns
    ensures o.Warned? ==> o.message == message
    ensures o.Shown? ==> IsRanking(t.rows, ColumnKey(c), Size, Always(), ByCount(), Descending, o.out)
  {
    if c !in t.columns then Warned(message)
    else Shown(RankGroups(t.rows, ColumnKey(c), Size, Always(), ByCount(), Descending))
  }

  /** The counts of a value count add up to the rows whose cell is not missing. */
  lemma ValueCountsTotal(t: Table, c: string, message: string)
    requires ValueCounts(t, c, message).Shown?
    ensures var out := ValueCounts(t, c, message).out;
      forall j | 0 <= j < |out| :: out[j].value == CountWhere(t.rows, HasKey(ColumnKey(c), out[j].key)) && out[j].value > 0
  {
    var out := ValueCounts(t, c, message).out;
    forall j | 0 <= j < |out|
      ensures out[j].value == CountWhere(t.rows, HasKey(ColumnKey(c), out[j].key)) && out[j].value > 0
    {
      var i :| 0 <= i < |t.rows| && ColumnKey(c)(t.rows[i]) == Some(out[j].key);
      assert t.rows[i] in GroupOf(t.rows, ColumnKey(c), out[j].key);
    }
  }

  /** Q10: the ten most frequent reporting networks. */
  function TopNetworks(t: Table): (o: Outcome<seq<Summary<Value, nat>>>)
    ensures !o.Failed?
    ensures !o.Raised?
    ensures o.Warned? <==> "net" !in t.columns
    ensures o.Shown? ==> IsTopGroups(t.rows, ColumnKey("net"), Size, Always(), ByCount(), Descending, 10, o.out)
  {
    if "net" !in t.columns then Warned("net column not found.")
    else Shown(TopGroups(t.rows, ColumnKey("net"), Size, Always(), ByCount(), Descending, 10))
  }

  /** Q14: reviewed versus automatic. */
  function StatusCounts(t: Table): (o: Outcome<seq<Summary<Value, nat>>>)
    ensures !o.Failed?
    ensures !o.Raised?
    ensures o.Warned? <==> "status" !in t.columns
    ensures o.Shown? ==> IsRanking(t.rows, ColumnKey("status"), Size, Always(), ByCount(), Descending, o.out)
  {
    ValueCounts(t, "status", "status column missing.")
  }

  /** Q15: events per event type. */
  function TypeCounts(t: Table): (o: Outcome<seq<Summary<Value, nat>>>)
    ensures !o.Failed?
    ensures !o.Raised?
    ensures o.Warned? <==> "type" !in t.columns
    ensures o.Shown? ==> IsRanking(t.rows, ColumnKey("type"), Size, Always(), ByCount(), Descending, o.out)
  {
    ValueCounts(t, "type", "type column missing.")
  }

  /** Q20: events per alert level. */
  function AlertCounts(t: Table): (o: Outcome<seq<Summary<Value, nat>>>)
    ensures !o.Failed?
    ensures !o.Raised?
    ensures o.Warned? <==> "alert" !in t.columns
    ensures o.Shown? ==> IsRanking(t.rows, ColumnKey("alert"), Size, Always(), ByCount(), Descending, o.out)
  {
    ValueCounts(t, "alert", "alert column missing.")
  }

  // ---------------------------------------------------------------------------
  // Q16: product tokens in `types`
  // ---------------------------------------------------------------------------

  const TypeTokens: seq<string> := ["shakemap", "dyfi", "origin", "phase-data", "finite-fault"]

  /** `df["types"].str.contains(token, na=False)`: a text cell holding the token; missing and
      non-text cells count as false. None of the tokens has a regex metacharacter outside a
      bracket, so the pattern matches as plain text. */
  function HasToken(token: string): Row -> bool {
    (r: Row) => Cell(r, "types").Some? && Cell(r, "types").value.Text? && Contains(Cell(r, "types").value.s, token)
  }

  function TokenCount(rows: seq<Row>, token: string): nat {
    CountWhere(rows, HasToken(token))
  }

  /** Q16: for each of the five tokens, how many events list it, most frequent first. */
  function TokenCounts(t: Table): (o: Outcome<seq<Summary<string, nat>>>)
    ensures !o.Failed?
    ensures !o.Raised?
    ensures o.Warned? <==> "types" !in t.columns
    ensures o.Shown? ==> |o.out| == |TypeTokens| && SortedByKey(o.out, ByCount(), Descending)
    ensures o.Shown? ==> forall j | 0 <= j < |o.out| ::
      o.out[j].key in TypeTokens && o.out[j].value == TokenCount(t.rows, o.out[j].key)
    ensures o.Shown? ==> forall i | 0 <= i < |TypeTokens| :: exists j | 0 <= j < |o.out| :: o.out[j].key == TypeTokens[i]
  {
    if "types" !in t.columns then Warned("types column missing.")
    else
      var table := seq(|TypeTokens|, i requires 0 <= i < |TypeTokens| => Summary(TypeTokens[i], TokenCount(t.rows, TypeTokens[i])));
      var out := SortBy(table, ByCount(), Descending);
      forall j | 0 <= j < |out|
        ensures out[j].key in TypeTokens && out[j].value == TokenCount(t.rows, out[j].key)
      {
        assert out[j] in multiset(table);
      }
      forall i | 0 <= i < |TypeTokens| ensures exists j | 0 <= j < |out| :: out[j].key == TypeTokens[i] {
        assert table[i] in multiset(out);
      }
      Shown(out)
  }

  // ---------------------------------------------------------------------------
  // Q17: mean rms and gap per country
  // ---------------------------------------------------------------------------

  datatype RmsGap = RmsGap(rms: Option<real>, gap: Option<real>)

  function RmsGapMeans(rows: seq<Row>): RmsGap {
    RmsGap(Mean(NumbersIn(rows, "rms")), Mean(NumbersIn(rows, "gap")))
  }

  function ByRms<K>(): Summary<K, RmsGap> -> Option<real> {
    (s: Summary<K, RmsGap>) => s.value.rms
  }

  /** Q17: mean `rms` and `gap` per country, highest mean `rms` first. */
  function RmsGapByCountry(t: Table): (o: Outcome<seq<Summary<Value, RmsGap>>>)
    ensures !o.Failed?
    ensures o.Warned? <==> "rms" !in t.columns || "country" !in t.columns
    ensures o.Raised? <==> !o.Warned? && "gap" !in t.columns
    ensures o.Shown? ==> IsRanking(t.rows, CountryKey, RmsGapMeans, Always(), ByRms(), Descending, o.out)
  {
    if "rms" !in t.columns || "country" !in t.columns then Warned("rms or country column missing.")
    else if "gap" !in t.columns then Raised("gap")
    else Shown(RankGroups(t.rows, CountryKey, RmsGapMeans, Always(), ByRms(), Descending))
  }

  // ---------------------------------------------------------------------------
  // Q24: most active places
  // ---------------------------------------------------------------------------

  /** `agg(freq=("id", "count"), avg_mag=("mag", "mean"))`. */
  datatype Activity = Activity(freq: nat, avgMag: Option<real>)

  function ActivityOf(rows: seq<Row>): Activity {
    Activity(CountOf("id")(rows), MeanOf("mag")(rows))
  }

  /** `freq * avg_mag`: NaN when the mean is. */
  function Score(a: Activity): Option<real> {
    match a.avgMag
    case Some(m) => Some(a.freq as real * m)
    case None => None
  }

  function FrequentPlace(a: Activity): bool {
    a.freq >= 5
  }

  function ByScore<K>(): Summary<K, Activity> -> Option<real> {
    (s: Summary<K, Activity>) => Score(s.value)
  }

  /** Q24: the three places of highest `freq * avg_mag` among those with at least five events
      with an `id`. */
  function ActiveRegions(t: Table): (o: Outcome<seq<Summary<Value, Activity>>>)
    ensures !o.Failed?
    ensures !o.Warned?
    ensures o.Raised? <==> "place" !in t.columns || "id" !in t.columns || "mag" !in t.columns
    ensures o.Shown? ==> IsTopGroups(t.rows, ColumnKey("place"), ActivityOf, FrequentPlace, ByScore(), Descending, 3, o.out)
  {
    if "place" !in t.columns then Raised("place")
    else if "id" !in t.columns then Raised("id")
    else if "mag" !in t.columns then Raised("mag")
    else Shown(TopGroups(t.rows, ColumnKey("place"), ActivityOf, FrequentPlace, ByScore(), Descending, 3))
  }

  // ---------------------------------------------------------------------------
  // Q26: shallow to deep ratio
  // ---------------------------------------------------------------------------

  datatype DepthMix = DepthMix(shallow: nat, deep: nat)

  function IsShallow(r: Row): bool {
    NumAt(r, "depth_km").Some? && NumAt(r, "depth_km").value < 50.0
  }

  function IsDeep(r: Row): bool {
    NumAt(r, "depth_km").Some? && NumAt(r, "depth_km").value > 300.0
  }

  function DepthMixOf(rows: seq<Row>): DepthMix {
    DepthMix(CountWhere(rows, IsShallow), CountWhere(rows, IsDeep))
  }

  /** `shallow / deep if deep > 0 else NaN`. */
  function Ratio(a: DepthMix): (r: Option<real>)
    ensures r.None? <==> a.deep == 0
    ensures r.Some? ==> r.value * a.deep as real == a.shallow as real && r.value >= 0.0
  {
    if a.deep > 0 then Some(a.shallow as real / a.deep as real) else None
  }

  function Supported(a: DepthMix): bool {
    a.shallow + a.deep >= 5
  }

  function ByRatio<K>(): Summary<K, DepthMix> -> Option<real> {
    (s: Summary<K, DepthMix>) => Ratio(s.value)
  }

  /** `dropna(subset=["country", "depth_km"])`. */
  predicate CountryAndDepth(r: Row) {
    Cell(r, "country").Some? && Cell(r, "depth_km").Some?
  }

  /** The error pandas raises when the row-wise `apply` over a table with no rows returns that
      table and it is assigned to the single column `ratio`. */
  const RatioOfNoRows: string := "Cannot set a DataFrame with multiple columns to the single column ratio"

  /** Q26: the twenty countries of highest shallow:deep ratio among those with at least five
      shallow or deep events; countries without a deep event have no ratio and come last. When
      no row has both a country and a depth there is no group to apply the ratio to, and the
      assignment of the ratio column fails. */
  function ShallowDeepRatio(t: Table): (o: Outcome<seq<Summary<Value, DepthMix>>>)
    ensures o.Warned? <==> "depth_km" !in t.columns
    ensures o.Raised? <==> "depth_km" in t.columns && "country" !in t.columns
    ensures o.Failed? <==> "depth_km" in t.columns && "country" in t.columns && Filter(t.rows, CountryAndDepth) == []
    ensures o.Failed? ==> o.error == RatioOfNoRows
    ensures o.Shown? ==>
      IsTopGroups(Filter(t.rows, CountryAndDepth), CountryKey, DepthMixOf, Supported, ByRatio(), Descending, 20, o.out)
  {
    if "depth_km" !in t.columns then Warned("depth_km missing.")
    else if "country" !in t.columns then Raised("country")
    else
      var kept := Filter(t.rows, CountryAndDepth);
      if kept == [] then Failed(RatioOfNoRows)
      else Shown(TopGroups(kept, CountryKey, DepthMixOf, Supported, ByRatio(), Descending, 20))
  }

  /** What Q26 promises on each row it shows: at most twenty rows, each with five or more shallow
      or deep events, the ratio missing exactly when there is no deep event. */
  lemma ShallowDeepRows(t: Table)
    requires ShallowDeepRatio(t).Shown?
    ensures var out := ShallowDeepRatio(t).out;
      |out| <= 20 &&
      forall j | 0 <= j < |out| ::
        out[j].value.shallow + out[j].value.deep >= 5 && (Ratio(out[j].value).None? <==> out[j].value.deep == 0)
  {
  }

  /** A country whose events are all shallow has no ratio and so ranks after every country
      that has one. */
  lemma NoDeepRanksLast<K>(a: Summary<K, DepthMix>, b: Summary<K, DepthMix>)
    requires a.value.deep == 0
    ensures KeyLe(ByRatio<K>()(b), ByRatio<K>()(a), Descending)
  {
  }

  // ---------------------------------------------------------------------------
  // Q27: magnitude with and without tsunami
  // ---------------------------------------------------------------------------

  datatype TsunamiContrast = TsunamiContrast(withTsunami: Option<real>, withoutTsunami: Option<real>, difference: Option<real>)

  function TsunamiIs(flag: real): Row -> bool {
    (r: Row) => NumAt(r, "tsunami") == Some(flag)
  }

  /** Q27: the mean magnitude of events with `tsunami == 1`, of those with `tsunami == 0`, and
      their difference, NaN when either mean is. */
  function TsunamiMagnitudes(t: Table): (o: Outcome<TsunamiContrast>)
    ensures !o.Failed?
    ensures !o.Raised?
    ensures o.Warned? <==> "tsunami" !in t.columns || "mag" !in t.columns
    ensures o.Shown? ==> (o.out.withTsunami.None? <==> NumbersIn(Filter(t.rows, TsunamiIs(1.0)), "mag") == [])
    ensures o.Shown? ==> (o.out.withoutTsunami.None? <==> NumbersIn(Filter(t.rows, TsunamiIs(0.0)), "mag") == [])
    ensures o.Shown? ==> (o.out.difference.Some? <==> o.out.withTsunami.Some? && o.out.withoutTsunami.Some?)
    ensures o.Shown? && o.out.difference.Some? ==>
      o.out.difference.value == o.out.withTsunami.value - o.out.withoutTsunami.value
  {
    if "tsunami" !in t.columns || "mag" !in t.columns then Warned("tsunami or mag column missing.")
    else
      var avgT := Mean(NumbersIn(Filter(t.rows, TsunamiIs(1.0)), "mag"));
      var avgN := Mean(NumbersIn(Filter(t.rows, TsunamiIs(0.0)), "mag"));
      var diff := if avgT.Some? && avgN.Some? then Some(avgT.value - avgN.value) else None;
      Shown(TsunamiContrast(avgT, avgN, diff))
  }

  // ---------------------------------------------------------------------------
  // Q30: deep-focus events per country
  // ---------------------------------------------------------------------------

  /** Q30: the twenty countries with the most events deeper than 300 km. */
  function DeepFocusCountries(t: Table): (o: Outcome<seq<Summary<Value, nat>>>)
    ensures !o.Failed?
    ensures o.Warned? <==> "depth_km" !in t.columns
    ensures o.Raised? <==> "depth_km" in t.columns && ("country" !in t.columns || "id" !in t.columns)
    ensures o.Shown? ==> IsTopGroups(Filter(t.rows, IsDeep), CountryKey, CountOf("id"), Always(), ByCount(), Descending, 20, o.out)
  {
    if "depth_km" !in t.columns then Warned("depth_km missing.")
    else if "country" !in t.columns then Raised("country")
    else if "id" !in t.columns then Raised("id")
    else Shown(TopGroups(Filter(t.rows, IsDeep), CountryKey, CountOf("id"), Always(), ByCount(), Descending, 20))
  }

  // ---------------------------------------------------------------------------
  // Q11-Q13: casualties and economic loss
  // ---------------------------------------------------------------------------

  function BySum<K>(): Summary<K, real> -> Option<real> {
    (s: Summary<K, real>) => Some(s.value)
  }

  /** `groupby(["place", "country"])`: rows missing either cell belong to no group. */
  function PlaceCountryKey(r: Row): Option<(Value, Value)> {
    if Cell(r, "place").Some? && Cell(r, "country").Some? then Some((Cell(r, "place").value, Cell(r, "country").value))
    else None
  }

  /** Q11: the five (place, country) pairs with the most casualties in total. */
  function CasualtiesByPlace(t: Table): (o: Outcome<seq<Summary<(Value, Value), real>>>)
    ensures !o.Failed?
    ensures o.Warned? <==> "casualties" !in t.columns
    ensures o.Warned? ==> o.message == "casualties column not present in dataset."
    ensures o.Raised? <==> "casualties" in t.columns && ("place" !in t.columns || "country" !in t.columns)
    ensures o.Shown? ==>
      IsTopGroups(t.rows, PlaceCountryKey, SumOf("casualties"), Always(), BySum(), Descending, 5, o.out)
  {
    if "casualties" !in t.columns then Warned("casualties column not present in dataset.")
    else if "place" !in t.columns then Raised("place")
    else if "country" !in t.columns then Raised("country")
    else Shown(TopGroups(t.rows, PlaceCountryKey, SumOf("casualties"), Always(), BySum(), Descending, 5))
  }

  /** Q12: the twenty countries with the largest total economic loss. */
  function LossByCountry(t: Table): (o: Outcome<seq<Summary<Value, real>>>)
    ensures !o.Failed?
    ensures o.Warned? <==> "economic_loss" !in t.columns
    ensures o.Warned? ==> o.message == "economic_loss column not present."
    ensures o.Raised? <==> "economic_loss" in t.columns && "country" !in t.columns
    ensures o.Shown? ==>
      IsTopGroups(t.rows, CountryKey, SumOf("economic_loss"), Always(), BySum(), Descending, 20, o.out)
  {
    if "economic_loss" !in t.columns then Warned("economic_loss column not present.")
    else if "country" !in t.columns then Raised("country")
    else Shown(TopGroups(t.rows, CountryKey, SumOf("economic_loss"), Always(), BySum(), Descending, 20))
  }

  /** Q13: the mean and count of the economic loss per alert level, highest mean first. */
  function LossByAlert(t: Table): (o: Outcome<seq<Summary<Value, CountMean>>>)
    ensures !o.Failed?
    ensures !o.Raised?
    ensures o.Warned? <==> "alert" !in t.columns || "economic_loss" !in t.columns
    ensures o.Warned? ==> o.message == "alert or economic_loss column missing."
    ensures o.Shown? ==>
      IsRanking(t.rows, ColumnKey("alert"), CountAndMean("economic_loss"), Always(), ByMean(), Descending, o.out)
  {
    if "alert" !in t.columns || "economic_loss" !in t.columns then Warned("alert or economic_loss column missing.")
    else Shown(RankGroups(t.rows, ColumnKey("alert"), CountAndMean("economic_loss"), Always(), ByMean(), Descending))
  }
}
