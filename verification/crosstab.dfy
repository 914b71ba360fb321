/** Q22: the (country, year, month) groups that had both a shallow (< 50 km) and a deep
    (> 300 km) event, in key order. */
module CrossTab {
  import opened Options
  import opened Strings
  import opened Frames
  import opened Sorting
  import opened Stats
  import opened Grouping
  import opened Queries
  import opened Summaries
  import Calendar

  /** A group key: `groupby(["country", "year", "month"])`. */
  datatype Period = Period(country: Value, year: int, month: int)

  /** The key of a row that survives `dropna(subset=["country", "time", "depth_km"])`, with
      `year` and `month` taken from `time`; None for a dropped row. */
  function PeriodKey(r: Row): Option<Period> {
    match (Cell(r, "country"), StampAt(r, "time"), Cell(r, "depth_km"))
    case (Some(c), Some(ms), Some(_)) => Some(Period(c, Calendar.YearOf(ms), Calendar.MonthOf(ms)))
    case _ => None
  }

  /** `agg(shallow=any(< 50), deep=any(> 300), count=count)`. */
  datatype Presence = Presence(shallow: bool, deep: bool, count: nat)

  function PresenceOf(rows: seq<Row>): Presence {
    Presence(CountWhere(rows, IsShallow) > 0, CountWhere(rows, IsDeep) > 0, CountOf("depth_km")(rows))
  }

  function BothDepths(p: Presence): bool {
    p.shallow && p.deep
  }

  // ---------------------------------------------------------------------------
  // Key order: `sort_values(["country", "year", "month"])`
  // ---------------------------------------------------------------------------

  /** Kinds of value in the order the model sorts mixed kinds (pandas raises on them). */
  function KindRank(v: Value): int {
    match v
    case Num(_) => 0
    case Stamp(_) => 1
    case Text(_) => 2
  }

  /** Ascending order on cell values: numbers and timestamps by value, text by code points. */
  predicate ValueLe(a: Value, b: Value) {
    match (a, b)
    case (Num(x), Num(y)) => x <= y
    case (Stamp(x), Stamp(y)) => x <= y
    case (Text(x), Text(y)) => TextLe(x, y)
    case _ => KindRank(a) <= KindRank(b)
  }

  lemma ValueLeTotalOrder(a: Value, b: Value, c: Value)
    ensures ValueLe(a, b) || ValueLe(b, a)
    ensures ValueLe(a, b) && ValueLe(b, a) ==> a == b
    ensures ValueLe(a, b) && ValueLe(b, c) ==> ValueLe(a, c)
  {
    if a.Text? && b.Text? {
      TextLeTotal(a.s, b.s);
      if TextLe(a.s, b.s) && TextLe(b.s, a.s) {
        TextLeAntisymmetric(a.s, b.s);
      }
      if c.Text? && TextLe(a.s, b.s) && TextLe(b.s, c.s) {
        TextLeTransitive(a.s, b.s, c.s);
      }
    }
  }

  /** Lexicographic order on (country, year, month). */
  predicate PeriodLe(a: Period, b: Period) {
    if a.country != b.country then ValueLe(a.country, b.country)
    else if a.year != b.year then a.year < b.year
    else a.month <= b.month
  }

  function ByPeriod(): (Summary<Period, Presence>, Summary<Period, Presence>) -> bool {
    (a: Summary<Period, Presence>, b: Summary<Period, Presence>) => PeriodLe(a.key, b.key)
  }

  lemma PeriodLeTotalPreorder()
    ensures TotalPreorder(ByPeriod())
  {
    forall a: Summary<Period, Presence>, b: Summary<Period, Presence>
      ensures PeriodLe(a.key, b.key) || PeriodLe(b.key, a.key)
    {
      ValueLeTotalOrder(a.key.country, b.key.country, b.key.country);
    }
    forall a: Summary<Period, Presence>, b: Summary<Period, Presence>, c: Summary<Period, Presence>
      | PeriodLe(a.key, b.key) && PeriodLe(b.key, c.key)
      ensures PeriodLe(a.key, c.key)
    {
      ValueLeTotalOrder(a.key.country, b.key.country, c.key.country);
      ValueLeTotalOrder(b.key.country, c.key.country, a.key.country);
      ValueLeTotalOrder(c.key.country, a.key.country, b.key.country);
    }
  }

  // ---------------------------------------------------------------------------
  // The query
  // ---------------------------------------------------------------------------

  /** Q22: the periods with both a shallow and a deep event, in key order. */
  function ShallowAndDeep(t: Table): (o: Outcome<seq<Summary<Period, Presence>>>)
    ensures !o.Failed?
    ensures o.Warned? <==> "depth_km" !in t.columns
    ensures o.Raised? <==> "depth_km" in t.columns && ("country" !in t.columns || "time" !in t.columns)
    ensures o.Shown? ==> GroupTable(t.rows, PeriodKey, PresenceOf, BothDepths, o.out)
    ensures o.Shown? ==> CoversGroups(t.rows, PeriodKey, PresenceOf, BothDepths, o.out)
    ensures o.Shown? ==> Sorted(o.out, ByPeriod())
  {
    if "depth_km" !in t.columns then Warned("depth_km missing.")
    else if "country" !in t.columns then Raised("country")
    else if "time" !in t.columns then Raised("time")
    else
      PeriodLeTotalPreorder();
      Shown(OrderGroups(t.rows, PeriodKey, PresenceOf, BothDepths, ByPeriod()))
  }

  /** Some row of the period passes `p`. */
  ghost predicate PeriodHas(rows: seq<Row>, k: Period, p: Row -> bool) {
    exists i | 0 <= i < |rows| :: PeriodKey(rows[i]) == Some(k) && p(rows[i])
  }

  /** A group's count of rows passing `p` is positive exactly when some row of the group does. */
  lemma GroupCountPositive(rows: seq<Row>, k: Period, p: Row -> bool)
    ensures CountWhere(GroupOf(rows, PeriodKey, k), p) > 0 <==> PeriodHas(rows, k, p)
  {
    if CountWhere(GroupOf(rows, PeriodKey, k), p) > 0 {
      CountedRowOccurs(rows, k, p);
    }
    if PeriodHas(rows, k, p) {
      OccurringRowCounted(rows, k, p);
    }
  }

  lemma CountedRowOccurs(rows: seq<Row>, k: Period, p: Row -> bool)
    requires CountWhere(GroupOf(rows, PeriodKey, k), p) > 0
    ensures PeriodHas(rows, k, p)
  {
    var g := GroupOf(rows, PeriodKey, k);
    var x := Filter(g, p)[0];
    assert x in Filter(g, p);
    assert x in g;
    var i :| 0 <= i < |rows| && rows[i] == x;
    assert PeriodKey(rows[i]) == Some(k) && p(rows[i]);
  }

  lemma OccurringRowCounted(rows: seq<Row>, k: Period, p: Row -> bool)
    requires PeriodHas(rows, k, p)
    ensures CountWhere(GroupOf(rows, PeriodKey, k), p) > 0
  {
    var g := GroupOf(rows, PeriodKey, k);
    var i :| 0 <= i < |rows| && PeriodKey(rows[i]) == Some(k) && p(rows[i]);
    assert rows[i] in g;
    var m :| 0 <= m < |g| && g[m] == rows[i];
    assert rows[i] in Filter(g, p);
  }

  /** A period is listed exactly when it has both a shallow and a deep event (after dropping
      rows missing country, time or depth). */
  lemma ShallowAndDeepExactly(t: Table, k: Period)
    requires ShallowAndDeep(t).Shown?
    ensures (exists j | 0 <= j < |ShallowAndDeep(t).out| :: ShallowAndDeep(t).out[j].key == k) <==>
      PeriodHas(t.rows, k, IsShallow) && PeriodHas(t.rows, k, IsDeep)
  {
    var out := ShallowAndDeep(t).out;
    ListedOnlyIfBoth(t.rows, out, k);
    ListedIfBoth(t.rows, out, k);
  }

  lemma ListedOnlyIfBoth(rows: seq<Row>, out: seq<Summary<Period, Presence>>, k: Period)
    requires GroupTable(rows, PeriodKey, PresenceOf, BothDepths, out)
    ensures (exists j | 0 <= j < |out| :: out[j].key == k) ==> PeriodHas(rows, k, IsShallow) && PeriodHas(rows, k, IsDeep)
  {
    if exists j | 0 <= j < |out| :: out[j].key == k {
      var j :| 0 <= j < |out| && out[j].key == k;
      assert BothDepths(PresenceOf(GroupOf(rows, PeriodKey, k)));
      GroupCountPositive(rows, k, IsShallow);
      GroupCountPositive(rows, k, IsDeep);
    }
  }

  lemma ListedIfBoth(rows: seq<Row>, out: seq<Summary<Period, Presence>>, k: Period)
    requires CoversGroups(rows, PeriodKey, PresenceOf, BothDepths, out)
    ensures PeriodHas(rows, k, IsShallow) && PeriodHas(rows, k, IsDeep) ==> exists j | 0 <= j < |out| :: out[j].key == k
  {
    if PeriodHas(rows, k, IsShallow) && PeriodHas(rows, k, IsDeep) {
      GroupCountPositive(rows, k, IsShallow);
      GroupCountPositive(rows, k, IsDeep);
      var i :| 0 <= i < |rows| && PeriodKey(rows[i]) == Some(k) && IsShallow(rows[i]);
      assert BothDepths(PresenceOf(GroupOf(rows, PeriodKey, PeriodKey(rows[i]).value)));
    }
  }
}
